/** The plain parameter records both designs read: the event counter handed to
    every event, the side a deme sits on, and the subsets of the input and
    derived parameters the event engine consults. */
module Parameters {

  /** `EventCounter`: every count starts at 0 and events only add to it. */
  datatype EventCounter = EventCounter(
    birth: nat,
    death: nat,
    mutation: nat,
    fission: nat,
    methylation: nat,
    demethylation: nat)

  /** A counter with every field at its default of 0. */
  const NoEvents := EventCounter(0, 0, 0, 0, 0, 0)

  /** The `side` string of a deme, "left" or "right". */
  datatype Side = Left | Right

  /** The fields of `InputParameters` the modelled code reads. A quota of -1
      in `leftDemes` or `rightDemes` switches the side quotas off. */
  datatype InputParameters = InputParameters(
    demeCarryingCapacity: int,
    initMigrationRate: real,
    leftDemes: int,
    rightDemes: int,
    baselineDeathRate: real,
    muDriverBirth: real,
    muDriverMigration: real,
    methRate: real,
    demethRate: real,
    maxGenerations: int,
    fissionConfig: int)

  /** The fields of `DerivedParameters` the modelled code reads; `maxDemes`
      defaults to 8. */
  datatype DerivedParameters = DerivedParameters(
    maxDemes: int,
    fissionModifier: real)

  const DefaultMaxDemes := 8
}
