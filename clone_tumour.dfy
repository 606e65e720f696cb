/** The older design's `Tumour` (`src/Tumour.cpp`) as an object whose methods
    update its vectors in place: `clones`, `driver_genotypes` and `demes`,
    the identity counters, the clocks and the fission schedule. The event
    counter and the random draws are arguments; each method states the new
    state through the specification functions of `CloneModel`. */
module CloneTumour {
  import opened Sequences
  import opened Selection
  import opened Parameters
  import opened CloneModel
  import opened CloneFission
  import opened CloneDivision

  class Tumour {
    var clones: seq<Clone>
    var driverGenotypes: seq<DriverGenotype>
    var demes: seq<Deme>
    var nextGenotypeId: int
    var nextDriverGenotypeId: int
    var gensElapsed: real
    var outputTimer: real
    var nextFission: real
    var fissionTimes: seq<real>

    /** The part of the state a division reads and writes, with the event
        counter. */
    function Snapshot(counter: EventCounter): Lineage
      reads this
    {
      Lineage(clones, driverGenotypes, demes, nextGenotypeId, nextDriverGenotypeId, counter)
    }

    /** Stored positions agree with actual positions; every deme's list
        agrees with its clones and every clone sits in the list it records;
        and there is a first fission time. */
    predicate Valid()
      reads this
    {
      ClonesIndexed(clones) && GenotypesIndexed(driverGenotypes) &&
      DemesNumbered(demes) && Listed(clones, demes) && Placed(clones, demes) && |fissionTimes| >= 1
    }

    /** A tumour in a given consistent state, its next fission set to the
        first fission time. */
    constructor (clones0: seq<Clone>, genotypes0: seq<DriverGenotype>, demes0: seq<Deme>,
                 nextGenotypeId0: int, nextDriverGenotypeId0: int, fissionTimes0: seq<real>)
      requires ClonesIndexed(clones0) && GenotypesIndexed(genotypes0)
      requires DemesNumbered(demes0) && Listed(clones0, demes0) && Placed(clones0, demes0)
      requires |fissionTimes0| >= 1
      ensures Valid()
      ensures clones == clones0 && driverGenotypes == genotypes0 && demes == demes0
      ensures nextGenotypeId == nextGenotypeId0 && nextDriverGenotypeId == nextDriverGenotypeId0
      ensures gensElapsed == 0.0 && outputTimer == 0.0
      ensures fissionTimes == fissionTimes0 && nextFission == fissionTimes0[0]
    {
      clones, driverGenotypes, demes := clones0, genotypes0, demes0;
      nextGenotypeId, nextDriverGenotypeId := nextGenotypeId0, nextDriverGenotypeId0;
      gensElapsed, outputTimer := 0.0, 0.0;
      fissionTimes := fissionTimes0;
      nextFission := fissionTimes0[0];
    }

    /** `remove_clone(demes[d], *demes[d].clones_list[p])`. The state it
        leaves is `AfterRemoveClone`; every back-reference stays right, one
        clone and one entry of deme d's list go, and nothing but the lists and
        the clones changes. */
    method RemoveClone(d: nat, p: nat)
      requires Valid() && d < |demes| && p < |demes[d].clonesList|
      modifies this`clones, this`demes
      ensures Valid()
      ensures (clones, demes) == AfterRemoveClone(old(clones), old(demes), d, p)
      ensures |clones| == old(|clones|) - 1 && |demes| == old(|demes|)
      ensures |demes[d].clonesList| == old(|demes[d].clonesList|) - 1
      ensures forall j :: 0 <= j < |demes| && j != d ==> |demes[j].clonesList| == old(|demes[j].clonesList|)
      ensures forall j :: 0 <= j < |demes| ==> demes[j] == old(demes[j]).(clonesList := demes[j].clonesList)
    {
      RemoveCloneKeepsListing(clones, demes, d, p);
      RemoveClonePlaced(clones, demes, d, p);
      assert ListHolds(clones, demes[d].clonesList, d);
      ErasedListInRange(clones, demes[d].clonesList, d, p);
      var clone := clones[demes[d].clonesList[p]];
      // remove clone from deme
      var deme := demes[d].(clonesList := EraseAt(demes[d].clonesList, clone.indexInDeme));
      // remove clone from clones; every later clone moves down one place and
      // the entries naming them follow it
      assert DemesNumbered(demes[d := deme]);
      demes := ShiftedDemes(demes[d := deme], clone.index);
      assert DemesNumbered(demes);
      var erased := EraseAt(clones, clone.index);
      clones := erased;
      // update indices: the deme's clones learn their positions in its list
      SetListPositions(demes[d].clonesList);
      // every clone learns its position in clones
      var placed := clones;
      var i := 0;
      while i < |clones|
        invariant 0 <= i <= |clones| == |placed|
        modifies this`clones
        invariant forall k :: 0 <= k < i ==> clones[k] == placed[k].(index := k)
        invariant forall k :: i <= k < |clones| ==> clones[k] == placed[k]
      {
        clones := clones[i := clones[i].(index := i)];
        i := i + 1;
      }
      assert clones == Renumbered(placed);
    }

    /** `remove_driver_genotype(driver_genotypes[g])`: the genotype is erased
        at its stored index and every genotype learns its position, as
        `AfterRemoveGenotype` says. Clones keep their `driver_index`. */
    method RemoveDriverGenotype(g: nat)
      requires Valid() && g < |driverGenotypes|
      modifies this`driverGenotypes
      ensures Valid()
      ensures driverGenotypes == AfterRemoveGenotype(old(driverGenotypes), g)
    {
      var erased := EraseAt(driverGenotypes, driverGenotypes[g].index);
      driverGenotypes := erased;
      var i := 0;
      while i < |driverGenotypes|
        invariant 0 <= i <= |driverGenotypes| == |erased|
        invariant forall k :: 0 <= k < i ==> driverGenotypes[k] == erased[k].(index := k)
        invariant forall k :: i <= k < |driverGenotypes| ==> driverGenotypes[k] == erased[k]
      {
        driverGenotypes := driverGenotypes[i := driverGenotypes[i].(index := i)];
        i := i + 1;
      }
      assert driverGenotypes == RenumberedGenotypes(erased);
    }

    /** `driver_genotypes[g].increment(-1)` followed by the removal of the
        genotype unless it is immortal, as `cell_death` and `cell_division`
        do. The source tests only `immortal`, not whether the population has
        reached 0. */
    method LoseGenotypeCell(g: nat)
      requires Valid() && g < |driverGenotypes|
      modifies this`driverGenotypes
      ensures Valid()
      ensures driverGenotypes == LoseCell(old(driverGenotypes), g)
    {
      var genotype := driverGenotypes[g];
      driverGenotypes := driverGenotypes[g := genotype.(population := genotype.population - 1)];
      if !genotype.immortal {
        RemoveDriverGenotype(g);
      }
    }

    /** `calculate_deme_birth_rate(demes[d])`: the deme's `sum_birth_rates`
        becomes the sum of its clones' birth rates; nothing else changes. */
    method CalculateDemeBirthRate(d: nat)
      requires Valid() && d < |demes|
      modifies this`demes
      ensures Valid()
      ensures demes == old(demes)[d := old(demes[d]).(
        sumBirthRates := Sum(ListBirthRates(clones, driverGenotypes, old(demes[d].clonesList))))]
    {
      var list := demes[d].clonesList;
      assert ListHolds(clones, list, d);
      ListHoldsDistinct(clones, list, d);
      ghost var rates := ListBirthRates(clones, driverGenotypes, list);
      var birthRate := 0.0;
      var i := 0;
      while i < |list|
        invariant 0 <= i <= |list|
        invariant birthRate == Sum(rates[..i])
      {
        assert rates[..i + 1][..i] == rates[..i];
        birthRate := birthRate + CloneBirth(driverGenotypes, clones[list[i]]);
        i := i + 1;
      }
      assert rates[..i] == rates;
      SameListsKeepListing(clones, demes, demes[d := demes[d].(sumBirthRates := birthRate)]);
      demes := demes[d := demes[d].(sumBirthRates := birthRate)];
    }

    /** `calculate_deme_migration_rate(demes[d])`: the deme's
        `sum_migration_rates` becomes the sum of its clones' migration rates;
        nothing else changes. */
    method CalculateDemeMigrationRate(d: nat)
      requires Valid() && d < |demes|
      modifies this`demes
      ensures Valid()
      ensures demes == old(demes)[d := old(demes[d]).(
        sumMigrationRates := Sum(ListMigrationRates(clones, driverGenotypes, old(demes[d].clonesList))))]
    {
      var list := demes[d].clonesList;
      assert ListHolds(clones, list, d);
      ListHoldsDistinct(clones, list, d);
      ghost var rates := ListMigrationRates(clones, driverGenotypes, list);
      var migrationRate := 0.0;
      var i := 0;
      while i < |list|
        invariant 0 <= i <= |list|
        invariant migrationRate == Sum(rates[..i])
      {
        assert rates[..i + 1][..i] == rates[..i];
        migrationRate := migrationRate + CloneMigration(driverGenotypes, clones[list[i]]);
        i := i + 1;
      }
      assert rates[..i] == rates;
      SameListsKeepListing(clones, demes, demes[d := demes[d].(sumMigrationRates := migrationRate)]);
      demes := demes[d := demes[d].(sumMigrationRates := migrationRate)];
    }

    /** `calculate_deme_birth_rate` then `calculate_deme_migration_rate` on
        deme d: both cached sums are recomputed over its list and nothing else
        changes. */
    method CalculateDemeRates(d: nat)
      requires Valid() && d < |demes|
      modifies this`demes
      ensures Valid()
      ensures demes == old(demes)[d := old(demes[d]).(
        sumBirthRates := Sum(ListBirthRates(clones, driverGenotypes, old(demes[d].clonesList))),
        sumMigrationRates := Sum(ListMigrationRates(clones, driverGenotypes, old(demes[d].clonesList))))]
    {
      CalculateDemeBirthRate(d);
      CalculateDemeMigrationRate(d);
    }

    /** The loop of `move_cells`: for each chosen position in turn, the
        clone there moves from `parentList` to the end of `daughterList` and
        records the daughter's identity and its place in the daughter's list
        (the source sets `deme` twice, through the list and through
        `clones[...->index]`, which name the same clone). */
    method MoveListed(parentList: seq<nat>, daughterList: seq<nat>, daughterId: nat, moves: seq<nat>)
      returns (parentList': seq<nat>, daughterList': seq<nat>)
      requires InRange(parentList, |clones|) && Fits(moves, |parentList|)
      modifies this`clones
      ensures (clones, parentList', daughterList') == MoveAll(old(clones), parentList, daughterList, daughterId, moves)
    {
      var start := clones;
      parentList', daughterList' := parentList, daughterList;
      var i := 0;
      while i < |moves|
        invariant 0 <= i <= |moves|
        invariant Fits(moves[..i], |parentList|)
        invariant (clones, parentList', daughterList') == MoveAll(start, parentList, daughterList, daughterId, moves[..i])
        modifies this`clones
      {
        assert moves[..i + 1][..i] == moves[..i];
        var index := moves[i];
        daughterList' := daughterList' + [parentList'[index]];
        var x := daughterList'[|daughterList'| - 1];
        clones := clones[x := clones[x].(deme := daughterId, indexInDeme := |daughterList'| - 1)];
        parentList' := EraseAt(parentList', index);
        i := i + 1;
      }
      assert moves[..i] == moves;
    }

    /** The loop that tells the clones of a deme's list their positions in
        it: `clones[list[i]].index_in_deme = i` for every i. */
    method SetListPositions(list: seq<nat>)
      requires InRange(list, |clones|)
      modifies this`clones
      ensures clones == SetPositions(old(clones), list)
    {
      var start := clones;
      var k := 0;
      while k < |list|
        invariant 0 <= k <= |list|
        invariant clones == SetPositions(start, list[..k])
        modifies this`clones
      {
        assert list[..k + 1][..k] == list[..k];
        clones := clones[list[k] := clones[list[k]].(indexInDeme := k)];
        k := k + 1;
      }
      assert list[..k] == list;
    }

    /** `move_cells(demes[d], daughter, ...)`: `cellsToMove` (the
        `stochastic_round` result) of the shuffled positions `perm` are sorted
        into descending order and the clones at them move from deme d to the
        daughter, as `AfterMoveCells` says. Once the daughter is appended to
        the demes every list agrees with its clones; the parent loses exactly
        the moved entries, the daughter gains them, and their populations add
        up as before. */
    method MoveCells(d: nat, daughter: Deme, cellsToMove: nat, perm: seq<nat>) returns (daughter': Deme)
      requires Valid() && d < |demes|
      requires daughter.identity == |demes| && ListHolds(clones, daughter.clonesList, daughter.identity)
      requires 0 <= demes[d].population <= |demes[d].clonesList|
      requires IsPermutation(perm, demes[d].population) && cellsToMove <= demes[d].population
      modifies this`clones, this`demes
      ensures InRange(old(demes[d].clonesList), old(|clones|))
      ensures (clones, demes, daughter') ==
              AfterMoveCells(old(clones), old(demes), d, daughter, ChosenPositions(perm, cellsToMove))
      ensures ClonesIndexed(clones) && Listed(clones, demes + [daughter']) && Placed(clones, demes + [daughter'])
      ensures |clones| == old(|clones|) && |demes| == old(|demes|)
      ensures |demes[d].clonesList| == old(|demes[d].clonesList|) - cellsToMove
      ensures |daughter'.clonesList| == |daughter.clonesList| + cellsToMove
      ensures multiset(demes[d].clonesList) + multiset(daughter'.clonesList) ==
              old(multiset(demes[d].clonesList)) + multiset(daughter.clonesList)
      ensures demes[d].population + daughter'.population == old(demes[d].population) + daughter.population
      ensures forall j :: 0 <= j < |demes| && j != d ==> demes[j] == old(demes[j])
      ensures demes[d] == old(demes[d]).(clonesList := demes[d].clonesList,
                population := old(demes[d].population) - cellsToMove)
      ensures daughter' == daughter.(clonesList := daughter'.clonesList, population := daughter.population + cellsToMove)
    {
      // the first cellsToMove shuffled indices, in descending order
      var moves := ChosenPositions(perm, cellsToMove);
      assert ListHolds(clones, demes[d].clonesList, d);
      ListHoldsDistinct(clones, demes[d].clonesList, d);
      MoveCellsKeepsListing(clones, demes, d, daughter, moves);
      MoveCellsPlaced(clones, demes, d, daughter, moves);
      daughter' := MoveChosen(d, daughter, moves);
    }

    /** The body of `move_cells` once the positions are chosen: the loop, then
        the parent's remaining clones learn their new positions (which the
        source leaves out), then both populations change by the number moved. */
    method MoveChosen(d: nat, daughter: Deme, moves: seq<nat>) returns (daughter': Deme)
      requires d < |demes| && InRange(demes[d].clonesList, |clones|) && Fits(moves, |demes[d].clonesList|)
      modifies this`clones, this`demes
      ensures (clones, demes, daughter') == AfterMoveCells(old(clones), old(demes), d, daughter, moves)
    {
      var parent := demes[d];
      var start := clones;
      var parentList, daughterList := MoveListed(parent.clonesList, daughter.clonesList, daughter.identity, moves);
      AfterMoveCellsClones(start, demes, d, daughter, moves, clones, parentList, daughterList);
      AfterMoveCellsDemes(start, demes, d, daughter, moves, clones, parentList, daughterList);
      SetListPositions(parentList);
      demes := demes[d := parent.(clonesList := parentList, population := parent.population - |moves|)];
      daughter' := daughter.(clonesList := daughterList, population := daughter.population + |moves|);
    }

    /** The loop of `pseudo_fission`: `remove_clone` on the clone at each
        position of `moves` of deme d's list in turn (`RemoveAll`). */
    method RemoveListed(d: nat, moves: seq<nat>)
      requires Valid() && d < |demes| && Fits(moves, |demes[d].clonesList|)
      modifies this`clones, this`demes
      ensures Valid()
      ensures (clones, demes) == RemoveAll(old(clones), old(demes), d, moves)
    {
      ghost var clones0, demes0 := clones, demes;
      var i := 0;
      while i < |moves|
        invariant 0 <= i <= |moves|
        invariant Fits(moves[..i], |demes0[d].clonesList|)
        invariant (clones, demes) == RemoveAll(clones0, demes0, d, moves[..i])
        invariant Valid()
        modifies this`clones, this`demes
      {
        assert moves[..i + 1][..i] == moves[..i];
        RemoveClone(d, moves[i]);
        i := i + 1;
      }
      assert moves[..i] == moves;
    }

    /** The end of `pseudo_fission`: deme d's population becomes `population`
        and its rate sums are recomputed from the clones it lists. */
    method SetPopulation(d: nat, population: int)
      requires Valid() && d < |demes|
      modifies this`demes
      ensures Valid()
      ensures demes == old(demes)[d := old(demes[d]).(population := population,
        sumBirthRates := Sum(ListBirthRates(clones, driverGenotypes, old(demes[d].clonesList))),
        sumMigrationRates := Sum(ListMigrationRates(clones, driverGenotypes, old(demes[d].clonesList))))]
    {
      ghost var demes0 := demes;
      var deme := demes[d];
      SameListsKeepListing(clones, demes, demes[d := deme.(population := population)]);
      demes := demes[d := deme.(population := population)];
      ghost var birth := Sum(ListBirthRates(clones, driverGenotypes, deme.clonesList));
      ghost var migration := Sum(ListMigrationRates(clones, driverGenotypes, deme.clonesList));
      CalculateDemeRates(d);
      UpdateThenRecompute(demes0, d, deme.(population := population), birth, migration);
    }

    /** `pseudo_fission(demes[d], ...)`: the clones at `cellsToMove` of the
        shuffled positions, highest position first, are removed with
        `remove_clone` (`RemoveAll`); the population drops by that many and
        the deme's rate sums are recomputed from the clones it keeps, which is
        the state `AfterPseudoFission` describes. */
    method PseudoFission(d: nat, cellsToMove: nat, perm: seq<nat>)
      requires Valid() && d < |demes|
      requires 0 <= demes[d].population <= |demes[d].clonesList|
      requires IsPermutation(perm, demes[d].population) && cellsToMove <= demes[d].population
      modifies this`clones, this`demes
      ensures Valid()
      ensures (clones, demes) == AfterPseudoFission(old(clones), driverGenotypes, old(demes), d, cellsToMove, perm)
    {
      ghost var clones0, demes0 := clones, demes;
      var population := demes[d].population;
      var moves := ChosenPositions(perm, cellsToMove);
      RemoveListed(d, moves);
      SetPopulation(d, population - cellsToMove);
      PseudoFissionUnfolds(clones0, driverGenotypes, demes0, d, cellsToMove, perm);
    }

    /** The true-fission branches of `deme_fission`: a new deme on the given
        side, with the parent's capacity, the next identity and one more
        fission than the parent, receives `cellsToMove` cells by `move_cells`
        and is appended to `demes`: the state `AfterSplit` describes. */
    method SplitDeme(d: nat, side: Side, cellsToMove: nat, perm: seq<nat>)
      requires Valid() && d < |demes|
      requires 0 <= demes[d].population <= |demes[d].clonesList|
      requires IsPermutation(perm, demes[d].population) && cellsToMove <= demes[d].population
      modifies this`clones, this`demes
      ensures Valid()
      ensures (clones, demes) == AfterSplit(old(clones), old(demes), d, side, cellsToMove, perm)
      ensures |clones| == old(|clones|) && |demes| == old(|demes|) + 1
      ensures demes[d] == old(demes[d]).(clonesList := demes[d].clonesList,
                population := old(demes[d].population) - cellsToMove)
      ensures |demes[d].clonesList| == old(|demes[d].clonesList|) - cellsToMove
      ensures forall j :: 0 <= j < old(|demes|) && j != d ==> demes[j] == old(demes[j])
      ensures demes[old(|demes|)] == Deme(old(demes[d].capacity), side, old(|demes|), cellsToMove,
        old(demes[d].fissions) + 1, 0.0, 0.0, 0.0, 0.0, demes[old(|demes|)].clonesList)
      ensures |demes[old(|demes|)].clonesList| == cellsToMove
    {
      var parent := demes[d];
      var newDeme := FissionDaughter(parent, side, |demes|);
      var daughter := MoveCells(d, newDeme, cellsToMove, perm);
      demes := demes + [daughter];
    }

    /** `deme_fission(demes[d], ...)`: every branch counts one fission. While
        the next fission time is still the first one (the source never moves
        it on), or once the elapsed generations reach it, a new deme with the
        parent's capacity, the next identity, no population and one more
        fission than the parent takes `cellsToMove` cells from the parent by
        `move_cells`; the first fission puts it on the right, later ones on the
        parent's side. The source never appends the new deme to `demes`; the
        model appends it, which is what its identity `demes.size()` is for.
        Otherwise the deme counts one more fission and loses `cellsToMove`
        cells by `pseudo_fission`. The new state is `AfterSplit` or
        `AfterPseudoFission`, the two branches of `AfterFission`. */
    method DemeFission(d: nat, counter: EventCounter, cellsToMove: nat, perm: seq<nat>) returns (counter': EventCounter)
      requires Valid() && d < |demes|
      requires 0 <= demes[d].population <= |demes[d].clonesList|
      requires IsPermutation(perm, demes[d].population) && cellsToMove <= demes[d].population
      modifies this`clones, this`demes
      ensures Valid()
      ensures counter' == counter.(fission := counter.fission + 1)
      ensures nextFission == fissionTimes[0] || gensElapsed >= nextFission ==>
        (clones, demes) == AfterSplit(old(clones), old(demes), d,
          if nextFission == fissionTimes[0] then Right else old(demes[d].side), cellsToMove, perm)
      ensures !(nextFission == fissionTimes[0] || gensElapsed >= nextFission) ==>
        (clones, demes) == AfterPseudoFission(old(clones), driverGenotypes,
          old(demes)[d := old(demes[d]).(fissions := old(demes[d].fissions) + 1)], d, cellsToMove, perm)
    {
      counter' := counter.(fission := counter.fission + 1);
      if nextFission == fissionTimes[0] || gensElapsed >= nextFission {
        SplitDeme(d, if nextFission == fissionTimes[0] then Right else demes[d].side, cellsToMove, perm);
      } else {
        var deme := demes[d];
        SameListsKeepListing(clones, demes, demes[d := deme.(fissions := deme.fissions + 1)]);
        demes := demes[d := deme.(fissions := deme.fissions + 1)];
        ghost var bumped := demes;
        assert bumped == old(demes)[d := old(demes[d]).(fissions := old(demes[d].fissions) + 1)];
        PseudoFission(d, cellsToMove, perm);
        assert (clones, demes) == AfterPseudoFission(old(clones), driverGenotypes, bumped, d, cellsToMove, perm);
      }
    }

    /** `methylation(*clones_list[...], driver_genotypes[...], ...)` on the
        tumour's own clone x and genotype g: the state becomes
        `MethylatedInPlace` of the one before. */
    method MethylateClone(x: nat, g: nat, counter: EventCounter, draws: seq<real>, methRate: real, demethRate: real)
      returns (counter': EventCounter)
      requires Valid() && x < |clones| && g < |driverGenotypes| && |draws| == |clones[x].methArray|
      modifies this`clones, this`driverGenotypes
      ensures Valid()
      ensures Snapshot(counter') == MethylatedInPlace(old(Snapshot(counter)), x, g, draws, methRate, demethRate)
    {
      var clone, genotype;
      clone, genotype, counter' := Methylation(clones[x], driverGenotypes[g], counter, draws, methRate, demethRate);
      SamePlaceKeepsListing(clones, demes, x, clone);
      clones := clones[x := clone];
      driverGenotypes := driverGenotypes[g := genotype];
    }

    /** `create_clone(demes[d], driver_genotypes[g], ...)` for the dividing
        clone x: the state becomes `CreatedClone` of the one before. The
        source appends the address of its local copy to the deme's list; the
        model appends the new clone's position. */
    method CreateClone(d: nat, x: nat, g: nat, driverIndex: nat, counter: EventCounter,
                       draws: seq<real>, methRate: real, demethRate: real)
      returns (counter': EventCounter)
      requires Valid() && d < |demes| && x < |clones| && g < |driverGenotypes|
      requires |draws| == |clones[x].methArray|
      modifies this`clones, this`demes, this`driverGenotypes, this`nextGenotypeId
      ensures Valid()
      ensures Snapshot(counter') ==
              CreatedClone(old(Snapshot(counter)), d, x, g, driverIndex, draws, methRate, demethRate)
    {
      var deme := demes[d];
      var clone := Clone(deme.identity, nextGenotypeId, driverGenotypes[g].identity,
                         |deme.clonesList|, |clones|, driverIndex, clones[x].methArray);
      nextGenotypeId := nextGenotypeId + 1;
      var genotype;
      clone, genotype, counter' := Methylation(clone, driverGenotypes[g], counter, draws, methRate, demethRate);
      driverGenotypes := driverGenotypes[g := genotype];
      AddCloneKeepsListing(clones, demes, d, clone);
      demes := demes[d := deme.(clonesList := deme.clonesList + [|clones|])];
      clones := clones + [clone];
    }

    /** `create_driver_genotype(clones[x], driver_genotypes[g])`: a new
        immortal genotype of one cell, child of clone x's driver genotype,
        with the next genotype identity, g's mutation and methylation tallies
        and rates, the current time as its origin, and the next position in
        `driver_genotypes` as its index, is appended. */
    method CreateDriverGenotype(x: nat, g: nat)
      requires Valid() && x < |clones| && g < |driverGenotypes|
      modifies this`driverGenotypes, this`nextDriverGenotypeId
      ensures Valid()
      ensures nextDriverGenotypeId == old(nextDriverGenotypeId) + 1
      ensures var parent := old(driverGenotypes[g]);
        driverGenotypes == old(driverGenotypes) + [DriverGenotype(1, clones[x].driverGenotype, old(nextDriverGenotypeId),
          parent.numberOfDriverMutations, parent.numberOfMigrationMutations, parent.numMeth, parent.numDemeth,
          true, parent.birthRate, parent.migrationRate, gensElapsed, old(|driverGenotypes|))]
    {
      var parent := driverGenotypes[g];
      var genotype := DriverGenotype(1, clones[x].driverGenotype, nextDriverGenotypeId,
        parent.numberOfDriverMutations, parent.numberOfMigrationMutations, parent.numMeth, parent.numDemeth,
        true, parent.birthRate, parent.migrationRate, gensElapsed, |driverGenotypes|);
      nextDriverGenotypeId := nextDriverGenotypeId + 1;
      driverGenotypes := driverGenotypes + [genotype];
    }

    /** Daughter i of a division gains drivers (the first branch of the loop
        of `cell_division`): `create_clone` from clone x with the position
        the new genotype is about to take as its `driver_index`, the new clone
        recording the next genotype identity, then `create_driver_genotype`
        from clone x, and the new genotype given the daughter's driver counts
        and drawn rates (`set_birth_rate`, `set_migration_rate`). The state
        becomes `DriverDaughter` of the one before. */
    method AddDriverDaughter(d: nat, x: nat, g: nat, w: DivisionDraws, i: nat, counter: EventCounter,
                             methRate: real, demethRate: real)
      returns (counter': EventCounter)
      requires Valid() && d < |demes| && x < |clones| && g < |driverGenotypes|
      requires i < 2 && Sized(w, |clones[x].methArray|)
      modifies this`clones, this`demes, this`driverGenotypes, this`nextGenotypeId, this`nextDriverGenotypeId
      ensures Valid()
      ensures Snapshot(counter') ==
              DriverDaughter(old(Snapshot(counter)), d, x, g, w, i, methRate, demethRate, gensElapsed)
    {
      counter' := CreateClone(d, x, g, |driverGenotypes|, counter, w.methDraws[i], methRate, demethRate);
      // update driver id
      var c := |clones| - 1;
      SamePlaceKeepsListing(clones, demes, c, clones[c].(driverGenotype := nextDriverGenotypeId));
      clones := clones[c := clones[c].(driverGenotype := nextDriverGenotypeId)];
      CreateDriverGenotype(x, g);
      // update number of mutations and the rates
      var last := |driverGenotypes| - 1;
      driverGenotypes := driverGenotypes[last := driverGenotypes[last].(
        numberOfDriverMutations := w.birthDrivers[i], numberOfMigrationMutations := w.migDrivers[i],
        birthRate := w.birthRates[i], migrationRate := w.migrationRates[i])];
    }

    /** The branch of `cell_division` where neither daughter gains a driver:
        genotype g gains a cell, `create_clone` makes a clone of deme d from
        clone x in genotype g, and clone x is methylated once more; the state
        becomes `WithoutDriver` of the one before. The source gives the new
        clone `driver_genotypes.size()` as its `driver_index`, a position past
        the end here; the model gives it g, the genotype it is created in. */
    method DivideWithoutDriver(d: nat, x: nat, g: nat, w: DivisionDraws, counter: EventCounter,
                               methRate: real, demethRate: real)
      returns (counter': EventCounter)
      requires Valid() && d < |demes| && x < |clones| && g < |driverGenotypes|
      requires Sized(w, |clones[x].methArray|)
      modifies this`clones, this`demes, this`driverGenotypes, this`nextGenotypeId
      ensures Valid()
      ensures Snapshot(counter') == WithoutDriver(old(Snapshot(counter)), d, x, g, w, methRate, demethRate)
    {
      var genotype := driverGenotypes[g];
      driverGenotypes := driverGenotypes[g := genotype.(population := genotype.population + 1)];
      counter' := CreateClone(d, x, g, g, counter, w.methDraws[0], methRate, demethRate);
      counter' := MethylateClone(x, g, counter', w.methDraws[1], methRate, demethRate);
    }

    /** Pass i of the loop of `cell_division` over the daughters: a daughter
        with birth or migration drivers is added by `AddDriverDaughter`; for
        one without, clone x is methylated in place. The state becomes
        `Daughter` of the one before. */
    method DaughterStep(d: nat, x: nat, g: nat, w: DivisionDraws, i: nat, counter: EventCounter,
                        methRate: real, demethRate: real)
      returns (counter': EventCounter)
      requires Valid() && d < |demes| && x < |clones| && g < |driverGenotypes|
      requires i < 2 && Sized(w, |clones[x].methArray|)
      modifies this`clones, this`demes, this`driverGenotypes, this`nextGenotypeId, this`nextDriverGenotypeId
      ensures Valid()
      ensures Snapshot(counter') == Daughter(old(Snapshot(counter)), d, x, g, w, i, methRate, demethRate, gensElapsed)
    {
      if w.birthDrivers[i] > 0 || w.migDrivers[i] > 0 {
        // create clone and perform methylation
        counter' := AddDriverDaughter(d, x, g, w, i, counter, methRate, demethRate);
      } else {
        counter' := MethylateClone(x, g, counter, w.methDraws[i], methRate, demethRate);
      }
    }

    /** The loop of `cell_division` over the two daughters, one
        `DaughterStep` each: the state becomes `AfterDaughters` of the one
        before, whose outcome `DaughtersShape`, `DaughtersKeep`,
        `DaughtersClones` and `DaughtersGenotypes` give. */
    method Daughters(d: nat, x: nat, g: nat, w: DivisionDraws, counter: EventCounter,
                     methRate: real, demethRate: real)
      returns (counter': EventCounter)
      requires Valid() && d < |demes| && x < |clones| && g < |driverGenotypes|
      requires Sized(w, |clones[x].methArray|)
      modifies this`clones, this`demes, this`driverGenotypes, this`nextGenotypeId, this`nextDriverGenotypeId
      ensures Valid()
      ensures Snapshot(counter') ==
              AfterDaughters(old(Snapshot(counter)), d, x, g, w, 2, methRate, demethRate, gensElapsed)
    {
      ghost var s0 := Snapshot(counter);
      counter' := counter;
      var i := 0;
      while i < 2
        invariant 0 <= i <= 2 && Valid()
        invariant Snapshot(counter') == AfterDaughters(s0, d, x, g, w, i, methRate, demethRate, gensElapsed)
      {
        counter' := DaughterStep(d, x, g, w, i, counter', methRate, demethRate);
        i := i + 1;
      }
    }

    /** The branch of `cell_division` where some daughter gains drivers,
        after the mutations are counted: the loop over the daughters, then,
        when both gained drivers, genotype g loses the dividing cell and is
        removed unless it is immortal. The state becomes `WithDrivers` of the
        one before. */
    method DivideWithDrivers(d: nat, x: nat, g: nat, w: DivisionDraws, counter: EventCounter,
                             methRate: real, demethRate: real)
      returns (counter': EventCounter)
      requires Valid() && d < |demes| && x < |clones| && g < |driverGenotypes|
      requires Sized(w, |clones[x].methArray|)
      modifies this`clones, this`demes, this`driverGenotypes, this`nextGenotypeId, this`nextDriverGenotypeId
      ensures Valid()
      ensures Snapshot(counter') == WithDrivers(old(Snapshot(counter)), d, x, g, w, methRate, demethRate, gensElapsed)
    {
      counter' := Daughters(d, x, g, w, counter, methRate, demethRate);
      if HasDrivers(w, 0) && HasDrivers(w, 1) {
        LoseGenotypeCell(g);
      }
    }

    /** The middle of `cell_division`, after the birth is counted and before
        the rates are recomputed: the branch without drivers, or the
        mutations counted and the branch with drivers. The state becomes
        `AfterDivide` of the one before. */
    method Divide(d: nat, x: nat, g: nat, w: DivisionDraws, counter: EventCounter,
                  methRate: real, demethRate: real)
      returns (counter': EventCounter)
      requires Valid() && d < |demes| && x < |clones| && g < |driverGenotypes|
      requires Sized(w, |clones[x].methArray|)
      modifies this`clones, this`demes, this`driverGenotypes, this`nextGenotypeId, this`nextDriverGenotypeId
      ensures Valid()
      ensures Snapshot(counter') == AfterDivide(old(Snapshot(counter)), d, x, g, w, methRate, demethRate, gensElapsed)
    {
      ghost var s0 := Snapshot(counter);
      var newMutations := ChooseNumberMutations(w.birthDrivers, w.migDrivers);
      if newMutations[0] == 0 && newMutations[1] == 0 {
        counter' := DivideWithoutDriver(d, x, g, w, counter, methRate, demethRate);
      } else {
        // update event counter for mutations
        counter' := counter.(mutation := counter.mutation + newMutations[0] + newMutations[1]);
        assert Snapshot(counter') == Mutated(s0, w);
        counter' := DivideWithDrivers(d, x, g, w, counter', methRate, demethRate);
      }
    }

    /** The clone at position p of deme d's list; `Valid` puts it in range. */
    function ListedClone(d: nat, p: nat): (x: nat)
      reads this
      requires Valid() && d < |demes| && p < |demes[d].clonesList|
      ensures x == demes[d].clonesList[p] && x < |clones|
    {
      assert ListedAt(clones, demes[d].clonesList, d, p);
      demes[d].clonesList[p]
    }

    /** `cell_division(counter, d, p)` for the clone at position p of deme
        d's list, given the Poisson draws of new birth and migration drivers
        per daughter, the rates the new genotypes draw, and the per-locus
        draws of the two methylation passes: the state becomes
        `AfterCellDivision` of the one before, whose outcome
        `CellDivisionWithoutDriver`, `CellDivisionDriverEntries`,
        `CellDivisionDriverCounts` and `CellDivisionDriverDemes` give. */
    method CellDivision(counter: EventCounter, d: nat, p: nat, w: DivisionDraws, methRate: real, demethRate: real)
      returns (counter': EventCounter)
      requires Valid() && d < |demes| && p < |demes[d].clonesList|
      requires clones[ListedClone(d, p)].driverIndex < |driverGenotypes|
      requires Sized(w, |clones[ListedClone(d, p)].methArray|)
      modifies this`clones, this`demes, this`driverGenotypes, this`nextGenotypeId, this`nextDriverGenotypeId
      ensures Valid()
      ensures Snapshot(counter') == AfterCellDivision(old(Snapshot(counter)), d, p, w, methRate, demethRate, gensElapsed)
    {
      ghost var s0 := Snapshot(counter);
      // update event counter for birth
      counter' := counter.(birth := counter.birth + 1);
      var deme := demes[d];
      SameListsKeepListing(clones, demes, demes[d := deme.(population := deme.population + 1)]);
      demes := demes[d := deme.(population := deme.population + 1)];
      assert Snapshot(counter') == Born(s0, d);
      var x := deme.clonesList[p];
      counter' := Divide(d, x, clones[x].driverIndex, w, counter', methRate, demethRate);
      CalculateDemeRates(d);
    }

    /** `cell_death(counter, d, p)`: one death is counted, deme d loses a cell,
        the genotype of the clone at position p of its list loses one and is
        removed when it is not immortal (`LoseCell`), and the clone is
        removed by `remove_clone`. */
    method CellDeath(counter: EventCounter, d: nat, p: nat) returns (counter': EventCounter)
      requires Valid() && d < |demes| && p < |demes[d].clonesList|
      requires clones[ListedClone(d, p)].driverIndex < |driverGenotypes|
      modifies this`clones, this`demes, this`driverGenotypes
      ensures Valid()
      ensures counter' == counter.(death := counter.death + 1)
      ensures (clones, demes) == AfterRemoveClone(old(clones),
        old(demes)[d := old(demes[d]).(population := old(demes[d].population) - 1)], d, p)
      ensures driverGenotypes == LoseCell(old(driverGenotypes), old(clones[demes[d].clonesList[p]].driverIndex))
    {
      counter' := counter.(death := counter.death + 1);
      var deme := demes[d];
      SameListsKeepListing(clones, demes, demes[d := deme.(population := deme.population - 1)]);
      demes := demes[d := deme.(population := deme.population - 1)];
      LoseGenotypeCell(clones[deme.clonesList[p]].driverIndex);
      RemoveClone(d, p);
    }

    /** `update_time`: the elapsed generations and the output timer both
        grow by the supplied exponential draw. */
    method UpdateTime(gensAdded: real)
      modifies this`gensElapsed, this`outputTimer
      ensures gensElapsed == old(gensElapsed) + gensAdded
      ensures outputTimer == old(outputTimer) + gensAdded
      ensures gensElapsed - outputTimer == old(gensElapsed - outputTimer)
    {
      gensElapsed := gensElapsed + gensAdded;
      outputTimer := outputTimer + gensAdded;
    }
  }
}
