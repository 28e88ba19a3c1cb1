# Car-park registry, modelled in Dafny

This project models the registry of a single-site car park, together with its
two entity classes. It follows the Java code of the repository as written.

- **Car** (`Cars.Car`, from Car.java) is a vehicle. Its registration number, make,
  model and year are fixed at construction. It also has an `isParked` flag and
  a parking timestamp.
- **ParkingSlot** (`Slots.ParkingSlot`, from Application.java) is a slot. Its id is
  fixed at construction. The class in Application.java is the one the rest of
  the code uses as `ParkingSlot`. The slot is a two-state machine over an
  `occupied` flag and a `parkedCar` reference.
- **CarPark** (`Registry.CarPark`, from CarPark.java) is the registry. It keeps:
  - a map from slot id to slot;
  - the set of slot ids ever added;
  - the set of registration numbers ever parked.

  It adds and deletes slots, parks cars, removes cars by registration or by
  slot id, and answers lookups.

Both sets only ever grow. Deleting a slot does not free its id, so that id can
never be added again. Removing a car does not free its registration, so that
registration can never be parked again. No removal path clears the car's
`isParked` flag. The model keeps all three behaviours. The field comment at CarPark.java:24
("track parked cars by registration number") and `parkCar`'s documentation
(CarPark.java:143-144, 153) describe the set as holding the cars parked now,
which the code does not do; the model follows the code (see "## Findings").

The registry's invariants:

- `Valid`: every slot is stored under its own id. Every stored id is in the
  used-id set. Every slot's `occupied` flag agrees with its car reference.
- `RegistrationsIndexed`: the registration set holds the registration of every
  occupied slot. No two occupied slots hold the same registration.
- `IndexExact`: the stronger rule those comments describe, under which the
  registration set is exactly the set of registrations parked now. Every
  operation keeps it except the two removals as written, and `AddParkingSlot`
  keeps it only for an empty slot. The corrected `...Releasing` removals keep
  it too.

The clock is a parameter. `Park` and `ParkCar` take the timestamp
string that the source reads from the wall clock.

## Model

| member | source | states |
|---|---|---|
| Cars.Car.constructor | Car.java:28-34 | the registration, make, model and year are the ones given (the getters of Car.java:76-117 read these `const` fields); a new car is not parked and has no parking time |
| Cars.Car.SetParked | Car.java:42-52 | afterwards `isParked` is the value given; the parking time is unchanged |
| Cars.Car.Park | Car.java:57-62 | the car is parked and its parking time is the timestamp passed in |
| Cars.Car.Unpark | Car.java:67-69 | the car is not parked; the recorded parking time stays |
| Slots.ParkingSlot.constructor | Application.java:26-30 | the slot has the given id and is unoccupied with no car; the id is a `const` with no setter |
| Slots.ParkingSlot.SetOccupied | Application.java:56-58 | sets the flag only, leaving the car reference, so it can break occupied ⇔ car present |
| Slots.ParkingSlot.ParkCar | Application.java:80-87 | an empty slot takes the car and becomes occupied; an occupied slot keeps its car and flag; with a non-null car, occupied ⇔ car present is kept |
| Slots.ParkingSlot.RemoveCar | Application.java:93-100 | an occupied slot loses its car and becomes empty; an empty slot is unchanged; occupied ⇔ car present is kept |
| CaseFold.EqualsIgnoreCase | CarPark.java:244 | the strings have equal length and every character pair is equal, equal after ASCII upper-casing, or equal after lower-casing the upper-cased forms; identical strings always match and matching strings have equal length |
| CaseFold.CharEqualsIgnoreCaseIsUpperEquality | CarPark.java:244 | two characters match ignoring case exactly when their ASCII upper-case forms are equal |
| CaseFold.EqualsIgnoreCaseIsUpperEquality | CarPark.java:244 | the character-by-character case-insensitive comparison holds exactly when the upper-cased strings are equal |
| CaseFold.EqualsIgnoreCaseIsEquivalence | CarPark.java:244 | case-insensitive equality is reflexive, symmetric and transitive |
| CaseFold.QueryCaseIsIrrelevant | CarPark.java:244 | two queries that upper-case to the same string match exactly the same makes |
| Registry.CarPark.constructor | CarPark.java:29-33 | the registry starts with no slots, no used ids and no registrations, and all invariants hold |
| Registry.CarPark.GetParkingSlots | CarPark.java:36-38 | the list holds exactly the stored slots, each once, so its length is the number of slots |
| Registry.CarPark.AddParkingSlot | CarPark.java:46-57 | succeeds exactly when the id was never used; on success the slot is stored under its id and the id becomes used; on failure nothing changes; the invariants are kept when the added slot is empty |
| Registry.CarPark.DeleteParkingSlot | CarPark.java:64-74 | removes the entry only when the slot exists and is empty, otherwise the map is unchanged; the used-id set and registration set never change |
| Registry.CarPark.GetAllParkingSlotsAndStatus | CarPark.java:118-126 | the status map has exactly the registry's ids, with "Occupied" exactly for occupied slots and "Empty" exactly for the others |
| Registry.CarPark.GetParkingSlot | CarPark.java:134-136 | returns a slot exactly when the id is stored, and that slot carries the id |
| Registry.CarPark.ParkCar | CarPark.java:146-172 | succeeds exactly when the slot exists, is empty and the registration is not in the registration set; on success the slot holds the car, the car is parked at the given time and the registration is added; on failure nothing changes; all three invariants are kept |
| Registry.CarPark.FindCarByRegistration | CarPark.java:181-189 | a result is an occupied stored slot with its own car, whose registration equals the query exactly; None exactly when no such slot exists; under the invariant the result is the only such slot |
| Registry.CarPark.RemoveCarByRegistration | CarPark.java:197-208 | empties at most one slot, and only one that held the registration; if none held it, nothing changes; no other slot, neither set and no car changes |
| Registry.CarPark.RemoveCarBySlotID | CarPark.java:216-227 | an existing slot ends up empty; an existing empty slot, every other slot and both sets are unchanged |
| Registry.CarPark.OccupiedAfterRemoval | CarPark.java:197-227 | emptying one occupied slot drops exactly that slot's registration from the occupied registrations and keeps the registration invariant |
| Registry.CarPark.FindCarsByMake | CarPark.java:238-244 | the result is `SlotsWithMake`: an id is returned exactly when its slot is occupied by a car whose make equals the query ignoring case, so `MakeQueryIgnoresCase` applies to it directly |
| Registry.CarPark.MakeQueryIgnoresCase | CarPark.java:240-244 | queries that differ only in letter case select the same slots (for example "Toyota" and "toyota") |
| Registry.CarPark.RemoveCarByRegistrationReleasing | CarPark.java:197-208 | corrected removal by registration: the same slot changes as in the written code, plus the freed registration leaves the set; it keeps the exact-index invariant, after which the registration is free again |
| Registry.CarPark.RemoveCarBySlotIDReleasing | CarPark.java:216-227 | corrected removal by slot id: the same slot changes as in the written code, plus the freed car's registration leaves the set; it keeps the exact-index invariant |
| Scenarios.TwoSlotsWithABC123InA001 | CarPark.java:46-57 | adding A001 and B001 and parking ABC123 in A001 succeeds and leaves the registration set {"ABC123"} |
| Scenarios.ReparkAfterRemovalByRegistration | CarPark.java:146-208 | as written: a second ABC123 is refused, B001 stays empty and A001 stays occupied; removal empties A001; parking ABC123 in B001 afterwards is still refused |
| Scenarios.ReparkAfterRemovalBySlotID | CarPark.java:146-227 | as written: after removing by slot id, parking the same registration elsewhere is refused |
| Scenarios.ReparkAfterReleasingRemovalByRegistration | CarPark.java:146-208 | with the corrected removal by registration, parking ABC123 in B001 afterwards succeeds |
| Scenarios.ReparkAfterReleasingRemovalBySlotID | CarPark.java:146-227 | with the corrected removal by slot id, parking the same registration elsewhere succeeds |
| Scenarios.DeletedSlotIdStaysUsed | CarPark.java:46-74 | deleting an occupied slot fails and the slot stays occupied; once it is emptied, deleting succeeds; after that its id cannot be added again |
| Scenarios.ParkThenFind | CarPark.java:146-189 | after a successful park, looking up the car's registration returns that car with the slot it was parked in |
| Scenarios.SlotParkThenRemove | Application.java:80-100 | parking a car in an empty slot and then removing it returns the slot to the empty state |

## Left out

- GUI.java is not part of this model. It holds the Swing frames and dialogs, the input collection with its non-empty checks, the re-seeding of A001 and B001, and `System.exit`.
- `CarPark.listAllSlots` is left out. It is console output with date parsing and wall-clock arithmetic.
- `findCarsByMake` prints and computes parking durations. The model keeps only its match condition and returns the set of matching slot ids.
- `System.out.println` on the failure paths and the `toString` methods print text and change no state, so they are left out.
- The JavaFX observable wrappers and the `...Property()` accessors are plain fields here, with no listeners.
- The private `convertStringPropertyToString` in Car.java is never called, so it is left out.
- The getters in Car.java and Application.java are not separate members. Each one is a read of the `const` or `var` field it returns.
- `Car.park` formats the wall clock as `yyyy-MM-dd HH:mm:ss`. The model passes that timestamp in as an already-formatted string.
- The Java map is a HashMap, so scan order is not promised. `GetParkingSlots` promises no order. `FindCarByRegistration` returns some match rather than the first in iteration order.
- CaseFold.EqualsIgnoreCase: folds ASCII letters only. Java's `equalsIgnoreCase` also folds letters outside ASCII.
- CaseFold.EqualsIgnoreCaseIsUpperEquality: is about the ASCII-only comparison above, so it says nothing about letters outside ASCII.
- Registry.CarPark.AddParkingSlot: requires the slot to satisfy occupied ⇔ car present. Two kinds of slot are excluded. A slot set occupied through `setOccupied(true)` with no car would make the Java scans throw a NullPointerException. A slot that still holds a car after `setOccupied(false)` is accepted by Java without error. Both cases are outside the model. Every call site (GUI.java:141-147, 394) adds a freshly built slot, so neither case is reached. The registration invariants are promised only when the added slot is empty, because the source accepts an occupied slot without indexing its car.
- Registry.CarPark.ParkCar: takes a non-null car, so a null car is outside the model. With a null car the Java code throws at `car.getRegistrationNumber()` (CarPark.java:151) when the slot exists and is empty, and returns false otherwise (CarPark.java:171). Both call sites (GUI.java:368-371, 470-471) pass a newly built car.
- Concurrency is not modelled, because the source is single-threaded.

## Findings

| source | as written | input that shows it | evidently intended | confidence | as-written member | corrected member |
|---|---|---|---|---|---|---|
| CarPark.java:197-208 | `removeCarByRegistration` empties the slot but never removes the registration from `parkedCarRegistrationNumbers` | slots A001 and B001; park ABC123 in A001; `removeCarByRegistration("ABC123")`; park ABC123 in B001 returns false | the freed registration can be parked again, since `parkCar`'s documentation refuses only a car that "is already parked" (CarPark.java:143-144) | medium, not executed | Scenarios.ReparkAfterRemovalByRegistration | Registry.CarPark.RemoveCarByRegistrationReleasing, Scenarios.ReparkAfterReleasingRemovalByRegistration |
| CarPark.java:216-227 | `removeCarBySlotID` empties the slot but never removes the freed car's registration from `parkedCarRegistrationNumbers` | slots A001 and B001; park ABC123 in A001; `removeCarBySlotID("A001")`; park ABC123 in B001 returns false | as above: the freed registration can be parked again | medium, not executed | Scenarios.ReparkAfterRemovalBySlotID | Registry.CarPark.RemoveCarBySlotIDReleasing, Scenarios.ReparkAfterReleasingRemovalBySlotID |

The registry's own removal methods stay as written, because the model follows
the code. The corrected members sit beside them. Each one is proved to keep the
exact-index invariant (`IndexExact`), the rule those comments describe.
