/** The newer design's `Tumour` (`src/tumour.cpp`, `include/methdemon/tumour.hpp`):
    an orchestrator that owns the demes and the genotypes, picks a deme and an
    event type by weighted choice, and decides between true fission,
    pseudo-fission and nothing when a full deme is picked for fission.

    What a deme does inside (choosing a cell, dividing it, killing it,
    splitting) lives in the `Deme` class, which is not part of this model: it
    enters as the operations of `DemeOps`, about which nothing is assumed. */
module DemeTumour {
  import opened Selection
  import opened Parameters

  /** A deme as the orchestrator sees it through its getters: carrying
      capacity, side, identity, population, fission count, death rate and the
      cached rate sums. */
  datatype Deme = Deme(
    capacity: int,
    side: Side,
    identity: nat,
    population: int,
    fissions: nat,
    deathRate: real,
    sumOfRates: real,
    sumBirthRates: real,
    sumMigrationRates: real)

  /** A genotype: its identity and its migration rate; its other constructor
      arguments are not modelled. */
  datatype Genotype = Genotype(identity: int, migrationRate: real)

  /** The deme's own operations the orchestrator calls: a cell's birth and
      migration rates, `cellDivision` (which also advances the next cell and
      genotype identities it is handed), `cellDeath`, `demeFission` (the
      parent afterwards and the new deme; the flag marks the first fission)
      and `pseudoFission`. */
  datatype DemeOps = DemeOps(
    cellBirth: (Deme, int) -> real,
    cellMigration: (Deme, int) -> real,
    cellDivision: (Deme, int, int, int, real) -> (Deme, int, int),
    cellDeath: (Deme, int) -> Deme,
    demeFission: (Deme, real, bool) -> (Deme, Deme),
    pseudoFission: Deme -> Deme)

  /** The founding deme the constructor builds before `initialise`: full
      capacity from the parameters, on the left, identity 0, one cell, no
      fissions, the baseline death rate as its death rate and as its rate
      sum, birth-rate sum 1 and the initial migration rate. */
  function FoundingDeme(params: InputParameters): (dm: Deme)
    ensures dm.side == Left && dm.identity == 0 && dm.population == 1 && dm.fissions == 0
  {
    Deme(params.demeCarryingCapacity, Left, 0, 1, 0, params.baselineDeathRate,
         params.baselineDeathRate, 1.0, params.initMigrationRate)
  }

  // ---------------------------------------------------------------------
  // Folds over the demes

  /** The `getSumOfRates()` of every deme, in deme order. */
  function DemeRates(demes: seq<Deme>): (r: seq<real>)
    ensures |r| == |demes| && forall j :: 0 <= j < |demes| ==> r[j] == demes[j].sumOfRates
  {
    seq(|demes|, j requires 0 <= j < |demes| => demes[j].sumOfRates)
  }

  /** `sumAllRates`: the demes' rate sums added from the first deme on. */
  function SumAllRates(demes: seq<Deme>): real {
    if |demes| == 0 then 0.0 else SumAllRates(demes[..|demes| - 1]) + demes[|demes| - 1].sumOfRates
  }

  /** `sumAllRates` is the sum of the demes' rates, which is the last running
      total `chooseDeme` scales its draw by; over non-negative rates it is
      non-negative. */
  lemma {:induction false} SumAllRatesIsTotal(demes: seq<Deme>)
    ensures SumAllRates(demes) == Sum(DemeRates(demes))
    ensures |demes| > 0 ==> SumAllRates(demes) == CumulativeSums(DemeRates(demes))[|demes| - 1]
    ensures NonNegative(DemeRates(demes)) ==> SumAllRates(demes) >= 0.0
    decreases |demes|
  {
    var rates := DemeRates(demes);
    if |demes| > 0 {
      var n := |demes|;
      SumAllRatesIsTotal(demes[..n - 1]);
      assert DemeRates(demes[..n - 1]) == rates[..n - 1];
    }
    if NonNegative(rates) {
      SumNonNegative(rates);
    }
  }

  /** `getNumCells`: the demes' populations added up. */
  function NumCells(demes: seq<Deme>): int {
    if |demes| == 0 then 0 else NumCells(demes[..|demes| - 1]) + demes[|demes| - 1].population
  }

  /** A deme appended to the list adds its population to the cell count. */
  lemma NumCellsAppend(demes: seq<Deme>, dm: Deme)
    ensures NumCells(demes + [dm]) == NumCells(demes) + dm.population
  {
    assert (demes + [dm])[..|demes|] == demes;
  }

  /** Replacing deme j changes the cell count by the change in its population
      alone. */
  lemma {:induction false} NumCellsUpdate(demes: seq<Deme>, j: nat, dm: Deme)
    requires j < |demes|
    ensures NumCells(demes[j := dm]) == NumCells(demes) - demes[j].population + dm.population
    decreases |demes|
  {
    var n := |demes|;
    var u := demes[j := dm];
    if j < n - 1 {
      assert u[..n - 1] == demes[..n - 1][j := dm];
      NumCellsUpdate(demes[..n - 1], j, dm);
    } else {
      assert u[..n - 1] == demes[..n - 1];
    }
  }

  /** With no deme of negative population the cell count is at least the
      population of every single deme. */
  lemma {:induction false} NumCellsBoundsEachDeme(demes: seq<Deme>, j: nat)
    requires forall i :: 0 <= i < |demes| ==> demes[i].population >= 0
    requires j < |demes|
    ensures NumCells(demes) >= demes[j].population >= 0
    decreases |demes|
  {
    var n := |demes|;
    NumCellsNonNegative(demes[..n - 1]);
    if j < n - 1 {
      NumCellsBoundsEachDeme(demes[..n - 1], j);
    }
  }

  /** With no deme of negative population the cell count is not negative. */
  lemma {:induction false} NumCellsNonNegative(demes: seq<Deme>)
    requires forall i :: 0 <= i < |demes| ==> demes[i].population >= 0
    ensures NumCells(demes) >= 0
    decreases |demes|
  {
    if |demes| > 0 {
      NumCellsNonNegative(demes[..|demes| - 1]);
    }
  }

  // ---------------------------------------------------------------------
  // chooseDeme and chooseEventType

  /** `chooseDeme`: deme 0 without a draw when there is one deme; otherwise
      the weighted choice over the demes' rate sums with the uniform draw u.
      With non-negative rates and u in [0, 1) it names a deme, and a draw
      above 0 never lands on a deme whose rates are 0 while the total is
      positive. */
  function ChooseDeme(demes: seq<Deme>, u: real): (k: nat)
    requires |demes| >= 1
    ensures |demes| == 1 ==> k == 0
    ensures NonNegative(DemeRates(demes)) && 0.0 <= u < 1.0 ==> k < |demes|
    ensures NonNegative(DemeRates(demes)) && 0.0 < u < 1.0 && SumAllRates(demes) > 0.0 ==>
      k < |demes| && demes[k].sumOfRates > 0.0
  {
    SumAllRatesIsTotal(demes);
    if |demes| == 1 then 0 else ChooseIndex(DemeRates(demes), u)
  }

  /** With three or more demes `chooseDeme` takes the first deme whose running
      total of rate sums reaches the scaled draw r = u * `sumAllRates`. */
  lemma ChooseDemeFirstCovering(demes: seq<Deme>, u: real)
    requires |demes| >= 3 && NonNegative(DemeRates(demes)) && 0.0 <= u < 1.0
    ensures var cum := CumulativeSums(DemeRates(demes));
            var r := ScaledDraw(u, SumAllRates(demes));
            var k := ChooseDeme(demes, u);
            k < |demes| && r <= cum[k] && forall i :: 0 <= i < k ==> cum[i] < r
  {
    SumAllRatesIsTotal(demes);
    ChooseScaledIsFirstCovering(DemeRates(demes), ScaledDraw(u, SumAllRates(demes)));
  }

  /** The running totals of `chooseEventType`: the cell's birth rate, plus
      the deme's death rate, plus the cell's migration rate unless turnover
      mode is on. Over non-negative rates they never decrease. */
  function EventRates(birth: real, death: real, migration: real, turnover: bool): (cum: seq<real>)
    ensures |cum| == if turnover then 2 else 3
    ensures 0.0 <= death && 0.0 <= migration ==> forall i, j :: 0 <= i <= j < |cum| ==> cum[i] <= cum[j]
  {
    [birth, birth + death] + if turnover then [] else [birth + death + migration]
  }

  /** `chooseEventType`: the uniform draw u scaled by the last running total
      gives "birth" below the birth rate, "death" below birth plus death, and
      "fission" otherwise. */
  function ChooseEventType(birth: real, death: real, migration: real, turnover: bool, u: real): (e: EventKind)
    ensures var r := ScaledDraw(u, EventRates(birth, death, migration, turnover)[if turnover then 1 else 2]);
      (e == Birth <==> r < birth) && (e == Death <==> birth <= r < birth + death)
  {
    PickEvent(EventRates(birth, death, migration, turnover), u)
  }

  /** In turnover mode, over non-negative rates and a draw in [0, 1), the
      event is "fission" only when birth and death rate are both 0 (the
      scaled draw is then 0 and below neither total); otherwise it is "birth"
      or "death". */
  lemma TurnoverNeverFission(birth: real, death: real, migration: real, u: real)
    requires 0.0 <= birth && 0.0 <= death && 0.0 <= u < 1.0
    ensures ChooseEventType(birth, death, migration, true, u) == Fission <==> birth + death == 0.0
  {
    var r := ScaledDraw(u, birth + death);
    if birth + death > 0.0 {
      assert r < birth + death;
    } else {
      assert r == 0.0;
    }
  }

  /** Without turnover, over non-negative rates with a positive total and a
      draw in [0, 1), "fission" is picked exactly when the scaled draw falls
      in the migration part [birth + death, total). */
  lemma MigrationPartIsFission(birth: real, death: real, migration: real, u: real)
    requires 0.0 <= birth && 0.0 <= death && 0.0 <= migration && 0.0 <= u < 1.0
    ensures var r := ScaledDraw(u, birth + death + migration);
      ChooseEventType(birth, death, migration, false, u) == Fission <==> birth + death <= r
  {
  }

  // ---------------------------------------------------------------------
  // The fission decision of `event`

  /** `rnd <= 1.0 / fission_modifier`. A modifier of 0 gives an infinite
      weight, which every draw is below; the model has no signed zero. */
  predicate WithinFissionWeight(rnd: real, fissionModifier: real) {
    fissionModifier == 0.0 || rnd <= 1.0 / fissionModifier
  }

  /** `demes.size() < d_params.max_demes`: the comparison is done on the
      unsigned size, so a negative `max_demes` becomes a huge bound and never
      stops a fission. */
  predicate BelowMaxDemes(numDemes: nat, maxDemes: int) {
    maxDemes < 0 || numDemes < maxDemes
  }

  /** What `event` does with a "fission" outcome on a full deme: whether it
      splits the deme (`first` when it is the only one) or pseudo-fissions it,
      and the side counters afterwards. */
  datatype FissionPlan = FissionPlan(split: bool, first: bool, leftDemes: int, rightDemes: int)

  /** The decision of `event` for a full deme on `side`: with a quota of -1 on
      either side, a split needs only the fission weight and room below
      `max_demes`; otherwise it also needs the deme's side counter to be below
      its quota. The first split (one deme so far) sets the right counter to
      1; a later one with quotas counts one more deme on the deme's side.
      Anything else is a pseudo-fission that leaves the counters alone. */
  function PlanFission(params: InputParameters, dParams: DerivedParameters, side: Side,
                       leftDemes: int, rightDemes: int, numDemes: nat, rnd: real): (p: FissionPlan)
    ensures p.split ==> WithinFissionWeight(rnd, dParams.fissionModifier) && BelowMaxDemes(numDemes, dParams.maxDemes)
    ensures p.first <==> p.split && numDemes == 1
    ensures p.first ==> p.rightDemes == 1 && p.leftDemes == leftDemes
    ensures !p.split ==> p.leftDemes == leftDemes && p.rightDemes == rightDemes
    ensures params.rightDemes == -1 || params.leftDemes == -1 ==>
      (p.split <==> WithinFissionWeight(rnd, dParams.fissionModifier) && BelowMaxDemes(numDemes, dParams.maxDemes)) &&
      (!p.first ==> p.leftDemes == leftDemes && p.rightDemes == rightDemes)
    ensures params.rightDemes != -1 && params.leftDemes != -1 && p.split && !p.first ==>
      (side == Right && rightDemes < params.rightDemes && p.rightDemes == rightDemes + 1 && p.leftDemes == leftDemes) ||
      (side == Left && leftDemes < params.leftDemes && p.leftDemes == leftDemes + 1 && p.rightDemes == rightDemes)
    ensures params.rightDemes != -1 && params.leftDemes != -1 ==>
      (p.split <==>
        (WithinFissionWeight(rnd, dParams.fissionModifier) && BelowMaxDemes(numDemes, dParams.maxDemes) &&
         ((side == Right && rightDemes < params.rightDemes) || (side == Left && leftDemes < params.leftDemes))))
  {
    var room := WithinFissionWeight(rnd, dParams.fissionModifier) && BelowMaxDemes(numDemes, dParams.maxDemes);
    if params.rightDemes == -1 || params.leftDemes == -1 then
      if !room then FissionPlan(false, false, leftDemes, rightDemes)
      else if numDemes == 1 then FissionPlan(true, true, leftDemes, 1)
      else FissionPlan(true, false, leftDemes, rightDemes)
    else
      var rightIndicator := rightDemes < params.rightDemes && side == Right;
      var leftIndicator := leftDemes < params.leftDemes && side == Left;
      if !((rightIndicator || leftIndicator) && room) then FissionPlan(false, false, leftDemes, rightDemes)
      else if numDemes == 1 then FissionPlan(true, true, leftDemes, 1)
      else if rightIndicator then FissionPlan(true, false, leftDemes, rightDemes + 1)
      else FissionPlan(true, false, leftDemes + 1, rightDemes)
  }

  /** The first fission is a split only when the founding deme's side has
      room: with quotas on, the founding left deme splits only while
      `leftDemes` is below the left quota, and the split then counts the new
      deme on the right, leaving `leftDemes` as it was. */
  lemma FirstSplitCountsRight(params: InputParameters, dParams: DerivedParameters, leftDemes: int, rnd: real)
    requires params.rightDemes != -1 && params.leftDemes != -1
    requires WithinFissionWeight(rnd, dParams.fissionModifier) && BelowMaxDemes(1, dParams.maxDemes)
    ensures var p := PlanFission(params, dParams, Left, leftDemes, 0, 1, rnd);
      (p.split <==> leftDemes < params.leftDemes) &&
      (p.split ==> p.first && p.leftDemes == leftDemes && p.rightDemes == 1)
  {
  }

  class Tumour {
    var demes: seq<Deme>
    var genotypes: seq<Genotype>
    var nextGenotypeId: int
    var nextCellId: int
    var leftDemes: int
    var rightDemes: int
    var gensElapsed: real
    var outputTimer: real
    var maxGens: int
    var fissionConfig: int
    var turnoverIndicator: bool

    /** `Tumour(params, d_params)`: one genotype and the founding deme, which
        the deme's own `initialise` then fills; both identity counters at 1,
        one deme counted on the left and none on the right (the founding deme
        is on the left), no time elapsed, turnover mode off, and the
        generation limit and fission configuration from the parameters. */
    constructor (params: InputParameters, initialise: Deme -> Deme)
      ensures demes == [initialise(FoundingDeme(params))]
      ensures genotypes == [Genotype(0, params.initMigrationRate)]
      ensures nextGenotypeId == 1 && nextCellId == 1
      ensures leftDemes == 1 && rightDemes == 0 && FoundingDeme(params).side == Left
      ensures gensElapsed == 0.0 && outputTimer == 0.0 && !turnoverIndicator
      ensures maxGens == params.maxGenerations && fissionConfig == params.fissionConfig
    {
      nextGenotypeId, nextCellId := 1, 1;
      leftDemes, rightDemes := 1, 0;
      gensElapsed, outputTimer := 0.0, 0.0;
      turnoverIndicator := false;
      genotypes := [Genotype(0, params.initMigrationRate)];
      demes := [initialise(FoundingDeme(params))];
      maxGens := params.maxGenerations;
      fissionConfig := params.fissionConfig;
    }

    /** `event`: pick deme k with the draw `uDeme`, take the picked cell's
        rates, pick the event type with `uEvent`, and carry it out. A birth
        or a death is the deme's own operation. A "fission" on a deme below
        the carrying capacity changes nothing; on a full deme it follows
        `PlanFission` with the draw `uFission`: a split appends the new deme
        (so the deme count grows by one only while below `max_demes`), a
        pseudo-fission keeps the count. */
    method Event(params: InputParameters, dParams: DerivedParameters, ops: DemeOps,
                 uDeme: real, chosenCell: int, uEvent: real, uFission: real)
      requires |demes| >= 1 && NonNegative(DemeRates(demes)) && 0.0 <= uDeme < 1.0
      modifies this`demes, this`nextCellId, this`nextGenotypeId, this`leftDemes, this`rightDemes
      ensures var k := ChooseDeme(old(demes), uDeme);
        var dm := old(demes[k]);
        var e := ChooseEventType(ops.cellBirth(dm, chosenCell), dm.deathRate, ops.cellMigration(dm, chosenCell),
                                 turnoverIndicator, uEvent);
        var plan := PlanFission(params, dParams, dm.side, old(leftDemes), old(rightDemes), old(|demes|), uFission);
        var split := ops.demeFission(dm, gensElapsed, plan.first);
        var born := ops.cellDivision(dm, chosenCell, old(nextCellId), old(nextGenotypeId), gensElapsed);
        (e == Birth ==>
           demes == old(demes)[k := born.0] && nextCellId == born.1 && nextGenotypeId == born.2 &&
           leftDemes == old(leftDemes) && rightDemes == old(rightDemes)) &&
        (e == Death ==>
           demes == old(demes)[k := ops.cellDeath(dm, chosenCell)] &&
           nextCellId == old(nextCellId) && nextGenotypeId == old(nextGenotypeId) &&
           leftDemes == old(leftDemes) && rightDemes == old(rightDemes)) &&
        (e == Fission && dm.population < params.demeCarryingCapacity ==>
           demes == old(demes) && leftDemes == old(leftDemes) && rightDemes == old(rightDemes) &&
           nextCellId == old(nextCellId) && nextGenotypeId == old(nextGenotypeId)) &&
        (e == Fission && dm.population >= params.demeCarryingCapacity ==>
           leftDemes == plan.leftDemes && rightDemes == plan.rightDemes &&
           nextCellId == old(nextCellId) && nextGenotypeId == old(nextGenotypeId) &&
           (plan.split ==> demes == old(demes)[k := split.0] + [split.1]) &&
           (!plan.split ==> demes == old(demes)[k := ops.pseudoFission(dm)]))
      ensures |demes| == old(|demes|) || (|demes| == old(|demes|) + 1 && BelowMaxDemes(old(|demes|), dParams.maxDemes))
    {
      var chosenDeme := ChooseDeme(demes, uDeme);
      var deme := demes[chosenDeme];
      var eventType := ChooseEventType(ops.cellBirth(deme, chosenCell), deme.deathRate,
                                       ops.cellMigration(deme, chosenCell), turnoverIndicator, uEvent);
      if eventType == Birth {
        var born := ops.cellDivision(deme, chosenCell, nextCellId, nextGenotypeId, gensElapsed);
        demes := demes[chosenDeme := born.0];
        nextCellId, nextGenotypeId := born.1, born.2;
      } else if eventType == Death {
        demes := demes[chosenDeme := ops.cellDeath(deme, chosenCell)];
      } else if eventType == Fission && deme.population >= params.demeCarryingCapacity {
        var room := WithinFissionWeight(uFission, dParams.fissionModifier) && BelowMaxDemes(|demes|, dParams.maxDemes);
        if params.rightDemes == -1 || params.leftDemes == -1 {
          if room {
            if |demes| == 1 {
              var split := ops.demeFission(deme, gensElapsed, true);
              demes := demes[chosenDeme := split.0] + [split.1];
              rightDemes := 1;
            } else {
              var split := ops.demeFission(deme, gensElapsed, false);
              demes := demes[chosenDeme := split.0] + [split.1];
            }
          } else {
            demes := demes[chosenDeme := ops.pseudoFission(deme)];
          }
        } else {
          var rightIndicator := rightDemes < params.rightDemes && deme.side == Right;
          var leftIndicator := leftDemes < params.leftDemes && deme.side == Left;
          var sideIndicator := rightIndicator || leftIndicator;
          if sideIndicator && room {
            if |demes| == 1 {
              var split := ops.demeFission(deme, gensElapsed, true);
              demes := demes[chosenDeme := split.0] + [split.1];
              rightDemes := 1;
            } else {
              var split := ops.demeFission(deme, gensElapsed, false);
              demes := demes[chosenDeme := split.0] + [split.1];
              if rightIndicator {
                rightDemes := rightDemes + 1;
              } else if leftIndicator {
                leftDemes := leftDemes + 1;
              }
            }
          } else {
            demes := demes[chosenDeme := ops.pseudoFission(deme)];
          }
        }
      }
    }

    /** `sumAllRates`: the loop over the demes adds their rate sums, giving
        `SumAllRates`. */
    method SumRates() returns (res: real)
      ensures res == SumAllRates(demes)
    {
      res := 0.0;
      var i := 0;
      while i < |demes|
        invariant 0 <= i <= |demes|
        invariant res == SumAllRates(demes[..i])
      {
        assert demes[..i + 1][..i] == demes[..i];
        res := res + demes[i].sumOfRates;
        i := i + 1;
      }
      assert demes[..i] == demes;
    }

    /** `getNumCells`: the loop over the demes adds their populations, giving
        `NumCells`. */
    method GetNumCells() returns (res: int)
      ensures res == NumCells(demes)
    {
      res := 0;
      var i := 0;
      while i < |demes|
        invariant 0 <= i <= |demes|
        invariant res == NumCells(demes[..i])
      {
        assert demes[..i + 1][..i] == demes[..i];
        res := res + demes[i].population;
        i := i + 1;
      }
      assert demes[..i] == demes;
    }

    /** `getNumDemes`: the number of demes. */
    method GetNumDemes() returns (n: int)
      ensures n == |demes|
    {
      n := |demes|;
    }

    /** `getNumGenotypes`: the number of genotypes. */
    method GetNumGenotypes() returns (n: int)
      ensures n == |genotypes|
    {
      n := |genotypes|;
    }

    /** `setGensElapsed(gensAdded = 0)`: adds its argument to the elapsed
        generations; called without one it changes nothing. */
    method SetGensElapsed(gensAdded: real := 0.0)
      modifies this`gensElapsed
      ensures gensElapsed == old(gensElapsed) + gensAdded
    {
      gensElapsed := gensElapsed + gensAdded;
    }

    /** `setTurnoverIndicator(indi = true)`: sets turnover mode, on when called
        without an argument. */
    method SetTurnoverIndicator(indi: bool := true)
      modifies this`turnoverIndicator
      ensures turnoverIndicator == indi
    {
      turnoverIndicator := indi;
    }
  }

  /** The default arguments of the setters: `setGensElapsed()` leaves the
      elapsed generations as they were and `setTurnoverIndicator()` turns
      turnover mode on. */
  method SetterDefaults(t: Tumour)
    modifies t
    ensures t.gensElapsed == old(t.gensElapsed) && t.turnoverIndicator
  {
    t.SetGensElapsed();
    t.SetTurnoverIndicator();
  }
}
