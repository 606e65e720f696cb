/** The state `deme_fission` leaves in the older design (`src/Tumour.cpp`),
    branch by branch: a true fission moves cells into a new deme appended to
    `demes`; a pseudo-fission removes cells with `remove_clone` and leaves the
    number of demes alone. */
module CloneFission {
  import opened Sequences
  import opened Selection
  import opened Parameters
  import opened CloneModel

  /** The deme `deme_fission` builds: the parent's capacity, the given side
      and identity, no cells and no rates yet, one more fission than the
      parent, and an empty list. */
  function FissionDaughter(parent: Deme, side: Side, identity: nat): Deme {
    Deme(parent.capacity, side, identity, 0, parent.fissions + 1, 0.0, 0.0, 0.0, 0.0, [])
  }

  /** A true fission of deme d: `move_cells` moves the clones at the chosen
      positions into a new deme on `side` with the next identity, and the new
      deme is appended to `demes`. Every back-reference stays right. Every
      other deme is untouched; the parent keeps all but its list and loses
      `cellsToMove` cells; the new deme holds exactly those cells and the
      entries the parent lost; and a clone changes only its placement. */
  function AfterSplit(clones: seq<Clone>, demes: seq<Deme>, d: nat, side: Side, cellsToMove: nat, perm: seq<nat>)
    : (r: (seq<Clone>, seq<Deme>))
    requires ClonesIndexed(clones) && DemesNumbered(demes) && Listed(clones, demes) && d < |demes|
    requires 0 <= demes[d].population <= |demes[d].clonesList|
    requires IsPermutation(perm, demes[d].population) && cellsToMove <= demes[d].population
    ensures ClonesIndexed(r.0) && DemesNumbered(r.1) && Listed(r.0, r.1)
    ensures Placed(clones, demes) ==> Placed(r.0, r.1)
    ensures |r.0| == |clones| && |r.1| == |demes| + 1
    ensures forall j :: 0 <= j < |demes| && j != d ==> r.1[j] == demes[j]
    ensures r.1[d] == demes[d].(clonesList := r.1[d].clonesList, population := demes[d].population - cellsToMove)
    ensures r.1[|demes|] == FissionDaughter(demes[d], side, |demes|).(
              clonesList := r.1[|demes|].clonesList, population := cellsToMove)
    ensures |r.1[|demes|].clonesList| == cellsToMove
    ensures multiset(r.1[d].clonesList) + multiset(r.1[|demes|].clonesList) == multiset(demes[d].clonesList)
    ensures forall i :: 0 <= i < |clones| ==>
              r.0[i] == clones[i].(deme := r.0[i].deme, indexInDeme := r.0[i].indexInDeme)
  {
    var parent := demes[d];
    assert ListHolds(clones, parent.clonesList, d);
    ListHoldsDistinct(clones, parent.clonesList, d);
    var daughter := FissionDaughter(parent, side, |demes|);
    var moves := ChosenPositions(perm, cellsToMove);
    MoveCellsKeepsListing(clones, demes, d, daughter, moves);
    MoveCellsPlaced(clones, demes, d, daughter, moves);
    MoveCellsOnlyPlace(clones, demes, d, daughter, moves);
    var m := AfterMoveCells(clones, demes, d, daughter, moves);
    (m.0, m.1 + [m.2])
  }

  /** `move_cells` changes a clone's `deme` and `index_in_deme` and nothing
      else about it. */
  lemma MoveCellsOnlyPlace(clones: seq<Clone>, demes: seq<Deme>, d: nat, daughter: Deme, moves: seq<nat>)
    requires ClonesIndexed(clones) && Listed(clones, demes) && d < |demes|
    requires daughter.identity == |demes| && ListHolds(clones, daughter.clonesList, daughter.identity)
    requires InRange(demes[d].clonesList, |clones|) && Fits(moves, |demes[d].clonesList|)
    ensures var r := AfterMoveCells(clones, demes, d, daughter, moves);
            |r.0| == |clones| &&
            forall i :: 0 <= i < |clones| ==> r.0[i] == clones[i].(deme := r.0[i].deme, indexInDeme := r.0[i].indexInDeme)
  {
    MoveCellsSetup(clones, demes, d, daughter, moves);
    var m := MoveAll(clones, demes[d].clonesList, daughter.clonesList, daughter.identity, moves);
    SetPositionsAt(m.0, m.1);
  }

  /** `pseudo_fission(demes[d], ...)`: the clones at the chosen positions
      are removed with `remove_clone`, highest position first; the deme loses
      `cellsToMove` cells and its rate sums become the sums over the clones
      it keeps. Every back-reference stays right, `cellsToMove` clones and
      entries of d's list are gone, and every other deme keeps all but the
      renumbered entries of its list. */
  function AfterPseudoFission(clones: seq<Clone>, genotypes: seq<DriverGenotype>, demes: seq<Deme>,
                              d: nat, cellsToMove: nat, perm: seq<nat>)
    : (r: (seq<Clone>, seq<Deme>))
    requires ClonesIndexed(clones) && DemesNumbered(demes) && Listed(clones, demes) && d < |demes|
    requires 0 <= demes[d].population <= |demes[d].clonesList|
    requires IsPermutation(perm, demes[d].population) && cellsToMove <= demes[d].population
    ensures ClonesIndexed(r.0) && DemesNumbered(r.1) && Listed(r.0, r.1)
    ensures |r.0| == |clones| - cellsToMove && |r.1| == |demes|
    ensures |r.1[d].clonesList| == |demes[d].clonesList| - cellsToMove
    ensures forall j :: 0 <= j < |demes| && j != d ==>
              r.1[j] == demes[j].(clonesList := r.1[j].clonesList) && |r.1[j].clonesList| == |demes[j].clonesList|
    ensures r.1[d] == demes[d].(clonesList := r.1[d].clonesList,
              population := demes[d].population - cellsToMove,
              sumBirthRates := Sum(ListBirthRates(r.0, genotypes, r.1[d].clonesList)),
              sumMigrationRates := Sum(ListMigrationRates(r.0, genotypes, r.1[d].clonesList)))
  {
    var moves := ChosenPositions(perm, cellsToMove);
    var t := RemoveAll(clones, demes, d, moves);
    var list := t.1[d].clonesList;
    assert ListHolds(t.0, list, d);
    ListHoldsDistinct(t.0, list, d);
    var deme := t.1[d].(population := demes[d].population - cellsToMove,
      sumBirthRates := Sum(ListBirthRates(t.0, genotypes, list)),
      sumMigrationRates := Sum(ListMigrationRates(t.0, genotypes, list)));
    SameListsKeepListing(t.0, t.1, t.1[d := deme]);
    (t.0, t.1[d := deme])
  }

  /** `AfterPseudoFission` unfolded: the state `RemoveAll` leaves, with deme
      d's population lowered and its rate sums recomputed over its list. */
  lemma PseudoFissionUnfolds(clones: seq<Clone>, genotypes: seq<DriverGenotype>, demes: seq<Deme>,
                             d: nat, cellsToMove: nat, perm: seq<nat>)
    requires ClonesIndexed(clones) && DemesNumbered(demes) && Listed(clones, demes) && d < |demes|
    requires 0 <= demes[d].population <= |demes[d].clonesList|
    requires IsPermutation(perm, demes[d].population) && cellsToMove <= demes[d].population
    ensures var t := RemoveAll(clones, demes, d, ChosenPositions(perm, cellsToMove));
            var list := t.1[d].clonesList;
            AfterPseudoFission(clones, genotypes, demes, d, cellsToMove, perm) ==
            (t.0, t.1[d := t.1[d].(population := demes[d].population - cellsToMove,
                sumBirthRates := Sum(ListBirthRates(t.0, genotypes, list)),
                sumMigrationRates := Sum(ListMigrationRates(t.0, genotypes, list)))])
  {
  }

  /** Lowering deme d's population and then recomputing its rate sums is
      one update of deme d. */
  lemma UpdateThenRecompute(demes: seq<Deme>, d: nat, deme: Deme, birth: real, migration: real)
    requires d < |demes|
    ensures var lowered := demes[d := deme];
            lowered[d := lowered[d].(sumBirthRates := birth, sumMigrationRates := migration)] ==
            demes[d := deme.(sumBirthRates := birth, sumMigrationRates := migration)]
  {
  }

  /** `deme_fission(demes[d], ...)` once the branch is known: a true fission
      on `side` when `split`, otherwise one more fission counted on the deme
      and a pseudo-fission. */
  function AfterFission(clones: seq<Clone>, genotypes: seq<DriverGenotype>, demes: seq<Deme>,
                        d: nat, split: bool, side: Side, cellsToMove: nat, perm: seq<nat>)
    : (r: (seq<Clone>, seq<Deme>))
    requires ClonesIndexed(clones) && DemesNumbered(demes) && Listed(clones, demes) && d < |demes|
    requires 0 <= demes[d].population <= |demes[d].clonesList|
    requires IsPermutation(perm, demes[d].population) && cellsToMove <= demes[d].population
    ensures ClonesIndexed(r.0) && DemesNumbered(r.1) && Listed(r.0, r.1)
    ensures |r.1| == |demes| + (if split then 1 else 0)
    ensures |r.0| == |clones| - (if split then 0 else cellsToMove)
    ensures r.1[d].population == demes[d].population - cellsToMove
    ensures r.1[d].fissions == demes[d].fissions + (if split then 0 else 1)
  {
    if split then AfterSplit(clones, demes, d, side, cellsToMove, perm)
    else
      var bumped := demes[d := demes[d].(fissions := demes[d].fissions + 1)];
      SameListsKeepListing(clones, demes, bumped);
      AfterPseudoFission(clones, genotypes, bumped, d, cellsToMove, perm)
  }

  /** `AfterFission` unfolded into its two branches. */
  lemma FissionUnfolds(clones: seq<Clone>, genotypes: seq<DriverGenotype>, demes: seq<Deme>,
                       d: nat, split: bool, side: Side, cellsToMove: nat, perm: seq<nat>)
    requires ClonesIndexed(clones) && DemesNumbered(demes) && Listed(clones, demes) && d < |demes|
    requires 0 <= demes[d].population <= |demes[d].clonesList|
    requires IsPermutation(perm, demes[d].population) && cellsToMove <= demes[d].population
    ensures split ==> AfterFission(clones, genotypes, demes, d, split, side, cellsToMove, perm) ==
                      AfterSplit(clones, demes, d, side, cellsToMove, perm)
    ensures var bumped := demes[d := demes[d].(fissions := demes[d].fissions + 1)];
            !split ==> Listed(clones, bumped) && DemesNumbered(bumped) &&
                       AfterFission(clones, genotypes, demes, d, split, side, cellsToMove, perm) ==
                       AfterPseudoFission(clones, genotypes, bumped, d, cellsToMove, perm)
  {
    SameListsKeepListing(clones, demes, demes[d := demes[d].(fissions := demes[d].fissions + 1)]);
  }

  /** A pseudo-fission keeps every surviving clone in the list it records. */
  lemma PseudoFissionKeepsPlaced(clones: seq<Clone>, genotypes: seq<DriverGenotype>, demes: seq<Deme>,
                                 d: nat, cellsToMove: nat, perm: seq<nat>)
    requires ClonesIndexed(clones) && DemesNumbered(demes) && Listed(clones, demes) && d < |demes|
    requires 0 <= demes[d].population <= |demes[d].clonesList|
    requires IsPermutation(perm, demes[d].population) && cellsToMove <= demes[d].population
    requires Placed(clones, demes)
    ensures var r := AfterPseudoFission(clones, genotypes, demes, d, cellsToMove, perm);
            Placed(r.0, r.1)
  {
    var t := RemoveAll(clones, demes, d, ChosenPositions(perm, cellsToMove));
    RemoveAllPlaced(clones, demes, d, ChosenPositions(perm, cellsToMove));
    PseudoFissionUnfolds(clones, genotypes, demes, d, cellsToMove, perm);
    var r := AfterPseudoFission(clones, genotypes, demes, d, cellsToMove, perm);
    SameListsKeepListing(t.0, t.1, r.1);
  }

  /** Both branches of `deme_fission` keep every clone in the list it
      records, so `Listed` and `Placed` still describe one placement. */
  lemma FissionKeepsPlaced(clones: seq<Clone>, genotypes: seq<DriverGenotype>, demes: seq<Deme>,
                           d: nat, split: bool, side: Side, cellsToMove: nat, perm: seq<nat>)
    requires ClonesIndexed(clones) && DemesNumbered(demes) && Listed(clones, demes) && d < |demes|
    requires 0 <= demes[d].population <= |demes[d].clonesList|
    requires IsPermutation(perm, demes[d].population) && cellsToMove <= demes[d].population
    requires Placed(clones, demes)
    ensures var r := AfterFission(clones, genotypes, demes, d, split, side, cellsToMove, perm);
            Placed(r.0, r.1)
  {
    FissionUnfolds(clones, genotypes, demes, d, split, side, cellsToMove, perm);
    if !split {
      var bumped := demes[d := demes[d].(fissions := demes[d].fissions + 1)];
      SameListsKeepListing(clones, demes, bumped);
      PseudoFissionKeepsPlaced(clones, genotypes, bumped, d, cellsToMove, perm);
    }
  }

  /** The total over the demes depends only on their populations. */
  lemma {:induction false} SamePopulationsSameTotal(a: seq<Deme>, b: seq<Deme>)
    requires |a| == |b| && forall j :: 0 <= j < |a| ==> a[j].population == b[j].population
    ensures TotalPopulation(a) == TotalPopulation(b)
    decreases |a|
  {
    if |a| > 0 {
      SamePopulationsSameTotal(a[..|a| - 1], b[..|b| - 1]);
    }
  }

  /** A true fission moves cells between demes and so keeps the tumour's
      total number of cells. */
  lemma SplitKeepsCells(clones: seq<Clone>, demes: seq<Deme>, d: nat, side: Side, cellsToMove: nat, perm: seq<nat>)
    requires ClonesIndexed(clones) && DemesNumbered(demes) && Listed(clones, demes) && d < |demes|
    requires 0 <= demes[d].population <= |demes[d].clonesList|
    requires IsPermutation(perm, demes[d].population) && cellsToMove <= demes[d].population
    ensures TotalPopulation(AfterSplit(clones, demes, d, side, cellsToMove, perm).1) == TotalPopulation(demes)
  {
    var r := AfterSplit(clones, demes, d, side, cellsToMove, perm);
    var n := |demes|;
    assert r.1 == r.1[..n] + [r.1[n]];
    TotalPopulationAppend(r.1[..n], r.1[n]);
    assert r.1[..n] == demes[d := r.1[d]];
    TotalPopulationUpdate(demes, d, r.1[d]);
  }

  /** A pseudo-fission kills the `cellsToMove` cells it removes: the tumour's
      total number of cells drops by exactly that many. */
  lemma PseudoFissionKillsCells(clones: seq<Clone>, genotypes: seq<DriverGenotype>, demes: seq<Deme>,
                                d: nat, cellsToMove: nat, perm: seq<nat>)
    requires ClonesIndexed(clones) && DemesNumbered(demes) && Listed(clones, demes) && d < |demes|
    requires 0 <= demes[d].population <= |demes[d].clonesList|
    requires IsPermutation(perm, demes[d].population) && cellsToMove <= demes[d].population
    ensures TotalPopulation(AfterPseudoFission(clones, genotypes, demes, d, cellsToMove, perm).1) ==
            TotalPopulation(demes) - cellsToMove
  {
    var r := AfterPseudoFission(clones, genotypes, demes, d, cellsToMove, perm);
    var u := demes[d := r.1[d]];
    SamePopulationsSameTotal(r.1, u);
    TotalPopulationUpdate(demes, d, r.1[d]);
  }
}
