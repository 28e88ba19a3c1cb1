/**
 * The vehicle of the car park (Car.java). Registration number, make, model and
 * year are fixed when the car is built and have no setter, so they are `const`
 * fields here; reading one of them is the corresponding getter. The parking
 * timestamp is `None` until `Park` records the time handed to it by the caller.
 */
module Cars {
  import opened Wrappers

  class Car {
    const registrationNumber: string
    const make: string
    const model: string
    const year: string
    var isParked: bool
    var parkingTime: Option<string>

    constructor (registrationNumber: string, make: string, model: string, year: string)
      ensures this.registrationNumber == registrationNumber
      ensures this.make == make && this.model == model && this.year == year
      ensures !isParked && parkingTime == None
    {
      this.registrationNumber := registrationNumber;
      this.make := make;
      this.model := model;
      this.year := year;
      isParked := false;
      parkingTime := None;
    }

    method SetParked(parked: bool)
      modifies this`isParked
      ensures isParked == parked
      ensures parkingTime == old(parkingTime)
    {
      isParked := parked;
    }

    /** Marks the car as parked and records `now` as its parking time. */
    method Park(now: string)
      modifies this
      ensures isParked && parkingTime == Some(now)
    {
      isParked := true;
      parkingTime := Some(now);
    }

    /** Marks the car as not parked; the recorded parking time stays. */
    method Unpark()
      modifies this`isParked
      ensures !isParked
      ensures parkingTime == old(parkingTime)
    {
      isParked := false;
    }
  }
}
