# methdemon event engine in Dafny

methdemon simulates a growing tumour as a set of demes, the glands of the
tissue. Each deme holds cells grouped into clones that share a driver
genotype and an fCpG methylation array. One Gillespie step works like this:

- a deme is picked by its rate sum;
- a clone or cell is picked within it;
- an event type is picked: birth, death or fission.

A birth divides a cell. It may mutate drivers, and each daughter's fCpG loci
are methylated or demethylated. A death removes a cell. A fission splits a
full deme into two, or, when no new deme is allowed, halves it in place
("pseudo-fission").

The repository holds two versions of this engine, and each is a module here.

- **Older design** (`src/Tumour.cpp`). Modules `CloneModel` and
  `CloneTumour`. `Tumour` keeps flat vectors of clones, driver genotypes and
  demes. Each clone stores back-references to its own position (`index`),
  its deme (`deme`) and its position in that deme's `clones_list`
  (`index_in_deme`). Each genotype stores its position too.
  - `CloneModel` holds the values and the specification functions of every
    container edit: `AfterRemoveClone`, `AfterRemoveGenotype`,
    `AfterMoveCells`, `RemoveAll`. It also holds the lemmas proving that each
    edit keeps every back-reference equal to the real position.
  - `CloneDivision` holds `cell_division` as specification functions of
    the part of the tumour a division reads and writes (`Lineage`: the
    three vectors, the two identity counters and the event counter), one
    function per step. Its lemmas give the whole outcome in closed form: the
    clones and genotypes appended, what stays as it was, and what the
    methylation tallies grow by.
  - `CloneFission` holds `deme_fission`, the true split and the
    pseudo-fission, as specification functions of the clones and demes.
  - `CloneTumour.Tumour` is a class whose methods make those edits in place,
    loop by loop. The `ensures` of each method ties the new state to one of
    those specification functions applied to the old state.
  - A deme's `clones_list` of pointers becomes a list of positions in
    `clones`. The source's pointers do not survive its own edits: the
    `erase` at src/Tumour.cpp:169 moves every later clone down one place,
    and the `push_back` at line 265 may reallocate the vector. The model
    renumbers instead: when a clone is erased, every stored position above it
    moves down by one, so each list keeps naming the clones it named before.
- **Newer design** (`src/tumour.cpp`, `include/methdemon/tumour.hpp`).
  Module `DemeTumour`. `Tumour` orchestrates demes that own their cells.
  - The model covers the choice of deme and event type, and the folds over
    the demes.
  - It covers the fission decision of `event`. That decision is guarded by
    the carrying capacity, the fission weight and `max_demes`, and by the
    left/right quota counters.
  - It covers the state fields with their default values, the getters and
    the setters.
  - What a deme does inside is code outside this model. It enters `event` as
    a `DemeOps` value of functions, about which nothing is assumed.

Shared modules:

- `Sequences`: `vector::erase`, and the descending sort of the chosen
  indices.
- `Selection`: running totals, `std::lower_bound` and the weighted choice.
- `Parameters`: the event counter, the deme side, and the parameter fields
  the engine reads.

Every random draw is a parameter of the operation that uses it:

- the uniform draws u in [0, 1);
- the Poisson driver counts;
- the shuffled index list;
- the `stochastic_round` result;
- the per-locus draws of a methylation pass;
- the rates a new genotype draws;
- the exponential time step.

## Model

| member | source | states |
|---|---|---|
| Sequences.EraseAt | src/Tumour.cpp:165-169 | `vector::erase` at k: one entry shorter, entries before k kept, entries after k moved down one place |
| Sequences.EraseAtMultiset | src/Tumour.cpp:136 | erasing position k removes exactly one copy of the entry there and nothing else |
| Sequences.SortDescending | src/Tumour.cpp:127 | the sort of the chosen indices is a permutation of them (same length, same multiset) |
| Sequences.SortDescendingNonIncreasing | src/Tumour.cpp:127 | the sorted indices are non-increasing |
| Sequences.SortDescendingDistinct | src/Tumour.cpp:127 | sorting distinct indices keeps them distinct |
| Sequences.SortDescendingOrders | src/Tumour.cpp:126-127 | the sorted indices are non-increasing, and strictly descending when the indices are distinct |
| Sequences.DescendingFitsShrinkingList | src/Tumour.cpp:126-136 | erasing strictly descending positions one after the other never runs off the end: the i-th is below n - i |
| Sequences.PermutationPrefix | src/Tumour.cpp:122-127 | any prefix of a shuffle of 0..n-1 has distinct entries, all below n |
| Selection.CumulativeSums | src/Tumour.cpp:40-43 | the running totals have one entry per rate, and the last is the total of all rates |
| Selection.CumulativeSumsAt | src/Tumour.cpp:40-43 | running total i is the sum of rates 0..i |
| Selection.CumulativeSumsNonDecreasing | src/tumour.cpp:37-42 | over non-negative rates the running totals never decrease |
| Selection.SumNonNegative | src/Tumour.cpp:44 | the total of non-negative rates is non-negative |
| Selection.LowerBound | src/Tumour.cpp:48-50 | `std::lower_bound`: every entry before the result is below r, and the entry at the result (if any) is not |
| Selection.ScaledDraw | src/Tumour.cpp:44 | u * total lies in [0, total], below a positive total, and above 0 when u and the total are |
| Selection.ChooseScaled | src/Tumour.cpp:37-50 | one entry gives 0; a draw not above the last total gives a valid position |
| Selection.ChooseScaledIsFirstCovering | src/Tumour.cpp:48-50 | with three or more rates the result is the first position whose running total reaches the draw |
| Selection.TwoEntriesAgreeWithLowerBound | src/Tumour.cpp:46-50 | with two entries, `r < cum[0] ? 0 : 1` equals `lower_bound` except when r equals `cum[0]` |
| Selection.ScaledChoiceHasPositiveRate | src/Tumour.cpp:44-50 | a draw strictly between 0 and the total never lands on a zero rate |
| Selection.ChooseIndex | src/Tumour.cpp:33-51 | the weighted choice is a valid index for u in [0, 1), 0 for one entry, and never a zero-rate entry when u > 0 and the total is positive |
| CloneModel.Renumbered | src/Tumour.cpp:174-176 | after the renumbering loop every clone's `index` is its position and nothing else about it changes |
| CloneModel.RenumberedGenotypes | src/Tumour.cpp:182-184 | after the renumbering loop every genotype's `index` is its position and nothing else about it changes |
| CloneModel.SetPositionsAt | src/Tumour.cpp:171-173 | over a list without repeats, each listed clone records its position in the list, and every other clone is untouched |
| CloneModel.ErasedListInRange | src/Tumour.cpp:165-169 | after the erase the deme's list still names existing clones (shifted past the erased one), none twice |
| CloneModel.RemoveCloneSameDeme | src/Tumour.cpp:165-173 | after `remove_clone` the edited deme's list agrees with its clones' `deme` and `index_in_deme` |
| CloneModel.RemoveCloneOtherDeme | src/Tumour.cpp:165-169 | every other deme's list, shifted past the erased clone, still agrees with its clones |
| CloneModel.RemoveCloneKeepsListing | src/Tumour.cpp:165-177 | `remove_clone` keeps every index equal to its position and every list in agreement; one clone and one list entry go; other lists keep their length; identities stay |
| CloneModel.RemoveAll | src/Tumour.cpp:153-157 | the `pseudo_fission` loop removes one clone and one entry of the deme's list per chosen position, keeps every back-reference right and changes nothing but lists |
| CloneModel.AddCloneKeepsListing | src/Tumour.cpp:263-266 | appending a clone that records the deme, the next list position and the next clone position, and listing it, keeps every back-reference right |
| CloneModel.SamePlaceKeepsListing | src/Tumour.cpp:211 | rewriting a clone without moving it (driver identity, methylation array) keeps every back-reference right |
| CloneModel.SameListsKeepListing | src/Tumour.cpp:193 | changing a deme's population, fission count or rate sums keeps every back-reference right |
| CloneModel.AfterRemoveGenotype | src/Tumour.cpp:179-185 | `remove_driver_genotype`: one shorter, order kept, every genotype's `index` is its position, no other field changes |
| CloneModel.Methylation | src/Tumour.cpp:246-258 | the array keeps its length; a locus flips 0/1 exactly when its draw is below the methylation (for 0) or demethylation (for 1) rate; `num_meth`/`num_demeth` and the counter grow by exactly the 0-to-1 and 1-to-0 flips |
| CloneModel.FlipsKeepBinary | src/Tumour.cpp:248-252 | an update that only flips loci keeps a 0/1 array a 0/1 array |
| CloneModel.GainsAndLossesCountFlips | src/Tumour.cpp:248-256 | gains plus losses equal the number of changed loci, and no locus counts as both |
| CloneModel.ChangedLociStep | src/Tumour.cpp:248-252 | the loci changed by a pass over the whole array are those changed over all but the last locus, plus the last if it changed |
| CloneModel.ChooseNumberMutations | src/Tumour.cpp:277-286 | each daughter's count covers both kinds of driver, is 0 exactly when it gains none, and the counts add up to every new driver |
| CloneModel.DemeRatesNonNegative | src/Tumour.cpp:346-360 | with non-negative genotype rates a deme's birth and migration sums are non-negative |
| CloneModel.ListRatesAppend | src/Tumour.cpp:346-351 | a clone appended to a deme's list adds exactly its own birth and migration rate to the sums |
| CloneModel.TotalPopulationUpdate | src/Tumour.cpp:316-322 | `num_cells` changes by exactly the change of the one deme replaced |
| CloneModel.TotalPopulationAppend | src/Tumour.cpp:316-322 | a new deme adds its population to `num_cells` |
| CloneModel.ChooseDeme | src/Tumour.cpp:33-51 | deme 0 for one deme; a valid deme for non-negative rates; never a deme with zero rates when u > 0 and the total is positive |
| CloneModel.ChooseDemeFirstCovering | src/Tumour.cpp:37-49 | with three or more demes the result is the first deme whose running total of `sum_rates` reaches u * `cum_rates.back()` |
| CloneModel.ChooseClone | src/Tumour.cpp:53-73 | position 0 for one clone; a valid position in the deme's list for a non-negative weight |
| CloneModel.AsWrittenNeverDies | src/Tumour.cpp:75-96 | as written, a positive birth rate not below the death rate always gives "birth" |
| CloneModel.EventTypeDiscrepancy | src/Tumour.cpp:75-96 | birth = death = 1, u = 0.75: the source picks "birth", running totals pick "death" |
| CloneModel.ChooseEventType | src/Tumour.cpp:75-96 | over running totals [birth, birth + death] never "fission", and "birth" exactly when the scaled draw is below the birth rate |
| CloneModel.ChosenPositions | src/Tumour.cpp:119-127 | `cells_to_move` positions; from a shuffle of 0..population-1 they are strictly descending and fit a list shrinking by one per erase |
| CloneModel.SortedPrefixFits | src/Tumour.cpp:122-127 | a sorted prefix of a permutation gives distinct positions that fit the shrinking list |
| CloneModel.MoveAll | src/Tumour.cpp:130-137 | the loop keeps the clones' count; the parent loses and the daughter gains one entry per moved position |
| CloneModel.MoveOneKeeps | src/Tumour.cpp:131-136 | one pass keeps the loop invariant: moved clones record the daughter and their place in its list; entries are conserved |
| CloneModel.MoveAllKeeps | src/Tumour.cpp:130-137 | the whole loop keeps that invariant from its start |
| CloneModel.MoveCellsParent | src/Tumour.cpp:136 | the parent's list, with positions retold, agrees with its clones |
| CloneModel.MoveCellsDaughter | src/Tumour.cpp:132-135 | every clone in the daughter's list records `deme == daughter.identity` and its position there |
| CloneModel.MoveCellsOther | src/Tumour.cpp:130-137 | demes other than parent and daughter keep lists that agree with their clones |
| CloneModel.MoveCellsKeepsListing | src/Tumour.cpp:118-140 | with the daughter appended every list agrees; the parent loses exactly the moved entries and the daughter gains them (multisets conserved); populations add up as before |
| CloneModel.MoveCellsAsWrittenBreaksListing | src/Tumour.cpp:130-137 | as written, a parent's remaining clone records a stale `index_in_deme` |
| CloneModel.SetPositions | src/Tumour.cpp:171-173 | the position loop over a deme's list keeps the number of clones; `SetPositionsAt` gives what each clone records |
| CloneModel.AfterRemoveClone | src/Tumour.cpp:165-177 | `remove_clone` as a function of the clones and demes; `RemoveCloneKeepsListing` and `RemoveClonePlaced` prove it keeps every back-reference right and every clone placed, removes one clone and one list entry and keeps identities |
| CloneModel.AfterMoveCells | src/Tumour.cpp:118-140 | `move_cells` of the chosen positions as a function of the clones, demes and new deme; `MoveCellsKeepsListing`, `MoveCellsPlaced` and `MoveCellsOnlyPlace` give its outcome |
| CloneModel.MoveCellsAsWritten | src/Tumour.cpp:129-137 | the `move_cells` loop as written, without retelling positions; `MoveCellsAsWrittenBreaksListing` shows a stale `index_in_deme` |
| CloneModel.EventTypeAsWritten | src/Tumour.cpp:75-95 | `choose_event_type` as written over [birth, death]; `AsWrittenNeverDies` and `EventTypeDiscrepancy` state where it differs from running totals |
| CloneModel.TotalPopulation | src/Tumour.cpp:315-321 | `num_cells` as a fold over the demes; `TotalPopulationUpdate`, `TotalPopulationAppend` and `CloneFission.SamePopulationsSameTotal` state how it changes |
| CloneModel.CloneBirth | src/Tumour.cpp:337-339 | `get_clone_birth`: the clone's genotype's birth rate (0.0 out of range, see Left out); `ListRatesAppend` and `DemeRatesNonNegative` use it |
| CloneModel.CloneMigration | src/Tumour.cpp:341-343 | `get_clone_migration`: the clone's genotype's migration rate (0.0 out of range, see Left out) |
| CloneModel.ListBirthRates | src/Tumour.cpp:346-352 | one birth rate per entry of a deme's list, in list order |
| CloneModel.ListMigrationRates | src/Tumour.cpp:354-360 | one migration rate per entry of a deme's list, in list order |
| CloneModel.DemeRates | src/Tumour.cpp:40-43 | one rate sum per deme, each equal to that deme's `sum_rates` |
| CloneModel.RemoveClonePlaced | src/Tumour.cpp:165-177 | `remove_clone` keeps every clone placed: its `deme` and `index_in_deme` name a list entry that names it back |
| CloneModel.RemoveAllPlaced | src/Tumour.cpp:153-157 | the `pseudo_fission` loop keeps every clone placed |
| CloneModel.MoveCellsPlaced | src/Tumour.cpp:118-140 | `move_cells` keeps every clone placed once the daughter is appended to the demes |
| CloneModel.LoseCell | src/Tumour.cpp:238-241 | an immortal genotype only loses a cell; any other is removed with the later ones renumbered to their positions; every `index` stays its position |
| CloneModel.Methylate | src/Tumour.cpp:246-258 | the pass over the array satisfies `Methylated`: 0 becomes 1 exactly when its draw is below the methylation rate, 1 becomes 0 exactly when its draw is below the demethylation rate |
| CloneModel.MethylatedIsMethylate | src/Tumour.cpp:246-258 | `Methylated` determines the new array: any array satisfying it is `Methylate` of the old one |
| CloneDivision.Mutations | src/Tumour.cpp:195-196 | two counts, and daughter i's count is positive exactly when it gains a birth or a migration driver |
| CloneDivision.DriverDaughters | src/Tumour.cpp:206-218 | at most one new genotype per daughter, and none exactly when no daughter gains drivers |
| CloneDivision.DriverDaughtersStep | src/Tumour.cpp:206-207 | counting one more daughter adds one exactly when that daughter gains drivers |
| CloneDivision.DriverDaughtersOfTwo | src/Tumour.cpp:206-207 | with two daughters the count is one per daughter with drivers, pass by pass |
| CloneDivision.Daughter | src/Tumour.cpp:207-221 | one pass keeps the number of demes, clone x, genotype g and the length of x's array |
| CloneDivision.AfterDaughters | src/Tumour.cpp:206-222 | the passes keep the number of demes, clone x, genotype g and the length of x's array |
| CloneDivision.AfterDivide | src/Tumour.cpp:197-230 | the division keeps the number of demes |
| CloneDivision.MethylatedInPlace | src/Tumour.cpp:246-258 | `methylation` of clone x in genotype g as a function of the state; `CloneTumour.Tumour.MethylateClone` is proved to compute it, and `DaughterShape` gives its tallies |
| CloneDivision.CreatedClone | src/Tumour.cpp:261-267 | `create_clone` as a function of the state; `CloneTumour.Tumour.CreateClone` is proved to compute it, and `DaughterAppends` gives the clone it appends |
| CloneDivision.DriverDaughter | src/Tumour.cpp:207-218 | a daughter with drivers as a function of the state; `DaughterAppends` gives the clone and genotype it appends |
| CloneDivision.WithoutDriver | src/Tumour.cpp:197-201 | the branch without drivers as a function of the state; `CellDivisionWithoutDriver` gives its outcome |
| CloneDivision.WithDrivers | src/Tumour.cpp:206-229 | the branch with drivers as a function of the state; `WithDriversOutcome` gives its outcome |
| CloneDivision.AfterCellDivision | src/Tumour.cpp:189-233 | the whole `cell_division` as a function of the state; `CellDivisionWithoutDriver` and `CellDivisionDriverEntries`, `CellDivisionDriverCounts` and `CellDivisionDriverDemes` give its outcome |
| CloneDivision.NewClones | src/Tumour.cpp:206-218 | one new clone per daughter with drivers |
| CloneDivision.NewGenotypes | src/Tumour.cpp:206-218 | one new genotype per daughter with drivers, each recording the position it takes |
| CloneDivision.DaughterShape | src/Tumour.cpp:207-221 | one pass: a daughter with drivers appends one clone and one genotype and leaves x's array as it was; one without leaves the pass's array in x; either way genotype g and the counter take the pass's gains and losses, the identity counters grow by the clones appended and the deme lists exactly the new positions |
| CloneDivision.DaughterKeeps | src/Tumour.cpp:207-221 | one pass changes no old clone but x and no old genotype but g |
| CloneDivision.DaughterAppends | src/Tumour.cpp:207-218 | a daughter with drivers appends exactly the clone `create_clone` makes, relabelled by line 211, and the genotype of lines 212-217 with g's tallies after the pass |
| CloneDivision.FirstDaughter | src/Tumour.cpp:206 | the first pass of the loop is daughter 0's |
| CloneDivision.DaughterIndexed | src/Tumour.cpp:207-218 | one pass keeps every genotype's `index` equal to its position |
| CloneDivision.DaughtersIndexed | src/Tumour.cpp:206-222 | both passes keep every genotype's `index` equal to its position |
| CloneDivision.DaughtersShape | src/Tumour.cpp:206-222 | after both passes, with k daughters with drivers: clones, genotypes and both identity counters grow by k; x holds the array of the passes taken in place; genotype g and the counter take the gains and losses of both passes; the deme lists exactly the new positions |
| CloneDivision.DaughtersKeep | src/Tumour.cpp:206-222 | both passes change no old clone but x and no old genotype but g |
| CloneDivision.DaughtersAppend | src/Tumour.cpp:206-218 | the new entries are daughter 0's (when it has drivers) and then daughter 1's, each clone holding its own daughter's pass and each genotype g's tallies as they stand after that pass |
| CloneDivision.DaughtersClones | src/Tumour.cpp:206-222 | the clones after the loop are the old ones with x's array updated, followed by `NewClones` |
| CloneDivision.DaughtersGenotypes | src/Tumour.cpp:206-222 | the genotypes after the loop are the old ones with g tallied by both passes, followed by `NewGenotypes` |
| CloneDivision.NewClonesFrom | src/Tumour.cpp:206-218 | any list holding the clones of the daughters with drivers, in order, is `NewClones` |
| CloneDivision.NewGenotypesFrom | src/Tumour.cpp:206-218 | any list holding the genotypes of the daughters with drivers, in order, is `NewGenotypes` |
| CloneDivision.NewEntriesFrom | src/Tumour.cpp:192-204 | the new entries do not depend on the population and counter changes made before the loop |
| CloneDivision.BornMutated | src/Tumour.cpp:192-204 | before the loop: one birth and `new_mutations[0] + new_mutations[1]` mutations counted, and the deme one cell larger |
| CloneDivision.WithDriversKeeps | src/Tumour.cpp:224-229 | after the loop the branch with drivers touches only the genotypes |
| CloneDivision.RecomputedDeme | src/Tumour.cpp:231-232 | recomputing the sums changes only deme d's two sums, to those of its list |
| CloneDivision.CellDivisionUnfolds | src/Tumour.cpp:189-233 | with drivers, the division is the birth, the mutation count, the branch with drivers and the recomputed sums |
| CloneDivision.CellDivisionWithoutDriver | src/Tumour.cpp:189-201 | without drivers, the whole division: x takes the second pass in place and one clone holding the first pass is appended in x's genotype; g gains a cell and takes both passes' gains and losses; the clone identity counter grows by one; one birth and both passes counted; the deme gains a cell and the new position, and its sums are those of its new list |
| CloneDivision.WithDriversOutcome | src/Tumour.cpp:204-229 | the branch with drivers in closed form: the old clones with x updated followed by `NewClones`; the old genotypes with g tallied followed by `NewGenotypes`, then `LoseCell` of g when both daughters gained drivers; identity counters grow by the daughters with drivers; the counter takes both passes; the deme lists the new positions |
| CloneDivision.CellDivisionDriverEntries | src/Tumour.cpp:189-233 | with drivers, the clones and genotypes after the division are those of `WithDriversOutcome`, and every genotype's `index` is its position |
| CloneDivision.CellDivisionDriverCounts | src/Tumour.cpp:189-233 | with drivers, both identity counters grow by the number of daughters with drivers; the counter gains one birth, every new driver as a mutation and the gains and losses of both passes |
| CloneDivision.CellDivisionDriverDemes | src/Tumour.cpp:189-233 | with drivers, only deme d changes: one more cell, the new positions listed, and its sums those of its new list |
| CloneFission.FissionDaughter | src/Tumour.cpp:103-108 | the new deme of a true fission: the parent's capacity, the given side and identity, no cells, the parent's fissions + 1; `AfterSplit` states the deme appended |
| CloneFission.AfterSplit | src/Tumour.cpp:103-109 | a true fission keeps every back-reference right and every clone placed; it appends a deme with the parent's capacity, the next identity, the parent's fissions + 1 and exactly `cells_to_move` cells and entries, all taken from the parent; other demes and everything but placement in the clones stay |
| CloneFission.MoveCellsOnlyPlace | src/Tumour.cpp:130-137 | `move_cells` changes only the `deme` and `index_in_deme` of clones |
| CloneFission.AfterPseudoFission | src/Tumour.cpp:142-162 | the deme loses `cells_to_move` cells, clones and list entries, and its sums become those of its remaining list; other demes keep all but their (renumbered) lists and their lengths; back-references stay right |
| CloneFission.PseudoFissionUnfolds | src/Tumour.cpp:142-162 | pseudo-fission is `RemoveAll` of the chosen positions, then the population drop and the recomputed sums |
| CloneFission.UpdateThenRecompute | src/Tumour.cpp:159-160 | lowering the population and then recomputing the sums is one update of the deme |
| CloneFission.AfterFission | src/Tumour.cpp:99-116 | a split adds one deme and keeps the clones; a pseudo-fission adds none, removes `cells_to_move` clones and raises the fissions; the parent loses `cells_to_move` cells |
| CloneFission.FissionUnfolds | src/Tumour.cpp:99-116 | the split branch is `AfterSplit`; the other is `AfterPseudoFission` of the demes with the parent's fissions raised |
| CloneFission.PseudoFissionKeepsPlaced | src/Tumour.cpp:142-162 | pseudo-fission keeps every clone placed |
| CloneFission.FissionKeepsPlaced | src/Tumour.cpp:99-116 | both branches of `deme_fission` keep every clone placed |
| CloneFission.SamePopulationsSameTotal | src/Tumour.cpp:316-322 | demes with the same populations give the same `num_cells` |
| CloneFission.SplitKeepsCells | src/Tumour.cpp:103-109 | a true fission keeps `num_cells` |
| CloneFission.PseudoFissionKillsCells | src/Tumour.cpp:142-162 | pseudo-fission lowers `num_cells` by exactly `cells_to_move` |
| CloneTumour.Tumour.constructor | src/Tumour.cpp:20-29 | a consistent state with `next_fission` set to the first fission time and both clocks at 0 |
| CloneTumour.Tumour.RemoveClone | src/Tumour.cpp:165-177 | the new state is `AfterRemoveClone`; back-references stay right; one clone and one list entry go; only lists change in the demes |
| CloneTumour.Tumour.RemoveDriverGenotype | src/Tumour.cpp:179-185 | the new genotype list is `AfterRemoveGenotype` and the invariant holds |
| CloneTumour.Tumour.LoseGenotypeCell | src/Tumour.cpp:238-241 | the genotype list becomes `LoseCell` of the old one: genotype g loses a cell, and is removed with the rest renumbered unless it is immortal |
| CloneTumour.Tumour.CalculateDemeBirthRate | src/Tumour.cpp:346-352 | the deme's `sum_birth_rates` becomes the sum of its clones' birth rates; nothing else changes |
| CloneTumour.Tumour.CalculateDemeMigrationRate | src/Tumour.cpp:354-360 | the deme's `sum_migration_rates` becomes the sum of its clones' migration rates; nothing else changes |
| CloneTumour.Tumour.CalculateDemeRates | src/Tumour.cpp:231-232 | both sums recomputed over the deme's list; nothing else changes |
| CloneTumour.Tumour.MoveListed | src/Tumour.cpp:130-137 | the loop of `move_cells` computes `MoveAll` |
| CloneTumour.Tumour.SetListPositions | src/Tumour.cpp:171-173 | the position loop computes `SetPositions` over the deme's list |
| CloneTumour.Tumour.MoveChosen | src/Tumour.cpp:130-139 | the loop, the position retelling and the population changes leave exactly the state `AfterMoveCells` of the given positions |
| CloneTumour.Tumour.MoveCells | src/Tumour.cpp:118-140 | the new state is `AfterMoveCells` of the chosen positions; all lists agree with the daughter appended; parent and daughter change by exactly `cells_to_move` entries and cells; other demes unchanged |
| CloneTumour.Tumour.RemoveListed | src/Tumour.cpp:153-157 | the loop of `pseudo_fission` computes `RemoveAll` and keeps the invariant |
| CloneTumour.Tumour.SetPopulation | src/Tumour.cpp:158-160 | the deme takes the given population and the sums of its list, and stays consistent; nothing else changes |
| CloneTumour.Tumour.ListedClone | src/Tumour.cpp:199 | the clone at position p of deme d's list is a clone of the tumour |
| CloneTumour.Tumour.PseudoFission | src/Tumour.cpp:142-162 | the state becomes `AfterPseudoFission` of the old one: the chosen clones removed (`RemoveAll`), the deme `cells_to_move` cells smaller, its sums recomputed over its remaining list |
| CloneTumour.Tumour.SplitDeme | src/Tumour.cpp:103-109 | the state becomes `AfterSplit` of the old one: a new deme with the parent's capacity, the next identity, the parent's fissions + 1 and the moved cells is appended; the parent loses them; other demes unchanged |
| CloneTumour.Tumour.DemeFission | src/Tumour.cpp:99-116 | every branch counts one fission; a true fission (side "right" on the first) leaves `AfterSplit` of the old state; otherwise `AfterPseudoFission` of the demes with the parent's fissions raised |
| CloneTumour.Tumour.MethylateClone | src/Tumour.cpp:246-258 | the state becomes `MethylatedInPlace` of the old one: clone x's array takes one pass, genotype g's `num_meth`/`num_demeth` and the counter grow by its gains and losses, nothing else changes |
| CloneTumour.Tumour.CreateClone | src/Tumour.cpp:261-267 | the state becomes `CreatedClone` of the old one: a clone with the next identity, the genotype's identity, the next position in the deme's list, the given driver index and x's array after one pass is appended and listed in the deme, recording its position in `clones` as its `index` (an assumption, see Left out); the genotype and the counter take the pass's flips |
| CloneTumour.Tumour.CreateDriverGenotype | src/Tumour.cpp:269-274 | exactly one genotype is appended: one immortal cell, child of the clone's genotype, with the next driver identity, the parent's driver counts, tallies and rates and the current time, recording its position as its `index` (an assumption, see Left out); the identity counter advances by one |
| CloneTumour.Tumour.AddDriverDaughter | src/Tumour.cpp:207-218 | the state becomes `DriverDaughter` of the old one: `create_clone`, the relabelling of line 211, and a new genotype carrying the daughter's driver counts and drawn rates |
| CloneTumour.Tumour.DivideWithoutDriver | src/Tumour.cpp:197-201 | the state becomes `WithoutDriver` of the old one |
| CloneTumour.Tumour.DaughterStep | src/Tumour.cpp:207-221 | the state becomes `Daughter` of the old one: a daughter with drivers is a `DriverDaughter`, one without methylates clone x in place |
| CloneTumour.Tumour.Daughters | src/Tumour.cpp:206-222 | the loop computes `AfterDaughters` of both passes |
| CloneTumour.Tumour.DivideWithDrivers | src/Tumour.cpp:206-229 | the state becomes `WithDrivers` of the old one: the loop, then `LoseCell` of genotype g when both daughters gained drivers |
| CloneTumour.Tumour.Divide | src/Tumour.cpp:197-230 | the state becomes `AfterDivide` of the old one: the branch without drivers, or the mutations counted and the branch with drivers |
| CloneTumour.Tumour.CellDivision | src/Tumour.cpp:189-233 | the state becomes `AfterCellDivision` of the old one, whose outcome `CloneDivision.CellDivisionWithoutDriver` and `CloneDivision.CellDivisionDriverEntries`, `CellDivisionDriverCounts` and `CellDivisionDriverDemes` give in closed form |
| CloneTumour.Tumour.CellDeath | src/Tumour.cpp:235-243 | one death counted; the deme loses a cell; clones and demes become `AfterRemoveClone`; the genotype list becomes `LoseCell` of the old one at the clone's genotype |
| CloneTumour.Tumour.UpdateTime | src/Tumour.cpp:302-308 | `gens_elapsed` and `output_timer` grow by the same amount, so their difference is kept |
| DemeTumour.FoundingDeme | src/tumour.cpp:14-16 | the first deme is on the left, identity 0, one cell, no fissions |
| DemeTumour.DemeRates | src/tumour.cpp:37-42 | one rate sum per deme, each equal to that deme's `getSumOfRates()` |
| DemeTumour.SumAllRates | src/tumour.cpp:137-143 | `sumAllRates` as a fold over the demes; `SumAllRatesIsTotal` states it is the sum of the deme rates and the last running total |
| DemeTumour.NumCells | src/tumour.cpp:147-153 | `getNumCells` as a fold over the demes; `NumCellsAppend`, `NumCellsUpdate`, `NumCellsBoundsEachDeme` and `NumCellsNonNegative` state its properties |
| DemeTumour.SumAllRatesIsTotal | src/tumour.cpp:137-143 | `sumAllRates` is the sum of the deme rate sums, the last running total of `chooseDeme`, and non-negative over non-negative rates |
| DemeTumour.NumCellsAppend | src/tumour.cpp:147-153 | a new deme adds its population to `getNumCells` |
| DemeTumour.NumCellsUpdate | src/tumour.cpp:147-153 | replacing one deme changes `getNumCells` by exactly its population change |
| DemeTumour.NumCellsBoundsEachDeme | src/tumour.cpp:147-153 | with no negative population the total is at least every deme's population |
| DemeTumour.NumCellsNonNegative | src/tumour.cpp:147-153 | with no negative population the total is non-negative |
| DemeTumour.ChooseDeme | src/tumour.cpp:29-54 | deme 0 for one deme; a valid deme for non-negative rates; never a zero-rate deme when u > 0 and the total is positive |
| DemeTumour.ChooseDemeFirstCovering | src/tumour.cpp:46-53 | with three or more demes the result is the first deme whose running total reaches u * `sumAllRates` |
| DemeTumour.EventRates | src/tumour.cpp:62-71 | two running totals in turnover mode, three otherwise, non-decreasing over non-negative rates |
| DemeTumour.ChooseEventType | src/tumour.cpp:56-81 | "birth" exactly when the scaled draw is below the birth rate, "death" exactly when it lies in [birth, birth + death) |
| DemeTumour.TurnoverNeverFission | src/tumour.cpp:68-80 | in turnover mode "fission" only when birth and death rate are both 0 |
| DemeTumour.MigrationPartIsFission | src/tumour.cpp:67-80 | without turnover, "fission" exactly when the scaled draw is at least birth + death |
| DemeTumour.PlanFission | src/tumour.cpp:97-131 | without quotas, a split happens exactly when the draw is within the fission weight and there is room below `max_demes`; with quotas, exactly when also the deme's side counter is below its quota, and exactly that counter goes up; the first split sets the right counter to 1; a pseudo-fission keeps both |
| DemeTumour.FirstSplitCountsRight | src/tumour.cpp:113-120 | with quotas the founding left deme splits exactly while `leftDemes` is below its quota, and the split sets `rightDemes` to 1 |
| DemeTumour.Tumour.constructor | src/tumour.cpp:4-25 | one genotype, the founding deme after `initialise`, both identity counters at 1, `leftDemes` 1 and `rightDemes` 0 with the founding deme on the left, no time elapsed, turnover off |
| DemeTumour.Tumour.Event | src/tumour.cpp:84-134 | birth and death are the deme's own operations on the chosen deme; "fission" below capacity changes nothing; at capacity it follows `PlanFission`; the deme count grows by one at most, and only below `max_demes` |
| DemeTumour.Tumour.SumRates | src/tumour.cpp:137-143 | the loop computes `SumAllRates` |
| DemeTumour.Tumour.GetNumCells | src/tumour.cpp:147-153 | the loop computes `NumCells`, the sum of the populations |
| DemeTumour.Tumour.GetNumDemes | include/methdemon/tumour.hpp:42 | the number of demes |
| DemeTumour.Tumour.GetNumGenotypes | include/methdemon/tumour.hpp:43 | the number of genotypes |
| DemeTumour.Tumour.SetGensElapsed | include/methdemon/tumour.hpp:49 | adds its argument to `gensElapsed` |
| DemeTumour.Tumour.SetTurnoverIndicator | include/methdemon/tumour.hpp:50 | sets turnover mode to its argument |
| DemeTumour.SetterDefaults | include/methdemon/tumour.hpp:49-50 | `setGensElapsed()` changes nothing; `setTurnoverIndicator()` turns turnover on |

## Left out

- `initialise` (src/Tumour.cpp:4-30) is not modelled. It builds the founding state from `Clone::initial_array` and `Deme` members that are not part of this model. `CloneTumour.Tumour.constructor` starts from any consistent state instead, with `next_fission` set to the first fission time as line 29 does.
- The random number generator is not modelled. Its draws are parameters. Nothing is said about their distributions: uniform, Poisson, exponential, the shuffle, or `stochastic_round`.
- Floating point is not modelled. Rates are `real` and float rounding is ignored. The model has no signed zero, and a fission modifier of 0 gives an infinite fission weight.
- `calculate_sums_of_rates` and `sum_of_all_rates` (src/Tumour.cpp:289-299) are not modelled. They add into fields that are never reset, so they compute no current total. In `update_time` only the supplied step is modelled.
- The trivial getters of the older design are not modelled: `check_time`, `num_clones`, `num_driver_genotypes` and `num_demes` (src/Tumour.cpp:311-334). `num_cells` is modelled as `CloneModel.TotalPopulation`.
- The `Deme`, `Clone`, `DriverGenotype` and `Genotype` classes are not part of this model. Their code is not available, so the following are missing:
  - `Deme::increment` is modelled as a change of population by the given amount;
  - `Deme::set_death_rate` at src/Tumour.cpp:161 is left out;
  - `calculate_sum_of_rates` and `calculate_average_array` are left out;
  - the rates a new genotype draws in `set_birth_rate`/`set_migration_rate` are parameters;
  - in the newer design, `chooseCell`, `cellDivision`, `cellDeath`, `demeFission` and `pseudoFission` are opaque functions of `DemeOps`;
  - `Genotype` keeps only its identity and migration rate.
- `getFissionsPerDeme` (src/tumour.cpp:155-162) is not modelled: it is a float average. The one-line getters `getNextCellID`, `getNextGenotypeID`, `getGensElapsed`, `getOutputTimer`, `getTurnoverIndicator` and `getDeme` (include/methdemon/tumour.hpp:38-47) are not modelled either: each returns a field or a deme that the model's state exposes directly. `chooseCell` (line 31) calls into `Deme` and is the `DemeOps` function of that name.
- Integer width is not modelled. The event counters, the identity counters, the populations and the side counters are C++ `int` in the source; the model uses unbounded `int` and `nat`, so it never overflows where the source would.
- Pointers are not modelled. The pointers in `clones_list` are positions in `clones`, and `shared_ptr<Genotype>` is a value in `genotypes`.
- Pointer invalidation is not modelled. In the source, the `erase` at src/Tumour.cpp:169 shifts the clones behind the erased one, and the `push_back` at line 265 may reallocate `clones`, so a stored `Clone*` can name another clone or freed memory. The model's positions are renumbered on every erase and never dangle.
- `CloneModel.CloneBirth`, `CloneModel.CloneMigration`: a clone whose `driver_index` is out of range reads rates of 0.0. The source reads past the end of `driver_genotypes` there, which is undefined behaviour.
- `CloneTumour.Tumour.RemoveDriverGenotype`: as in the source (src/Tumour.cpp:179-185), the genotypes are renumbered but the clones' `driver_index` is not, so clones of later genotypes name the wrong one afterwards.
- `CloneTumour.Tumour.PseudoFission`: it does not model `set_death_rate` at line 161.
- `CloneModel.ChooseClone`: line 54 writes into an unsized vector. The model uses the list that was evidently meant: every clone weighted by the deme death rate plus the birth rate of the first clone's genotype, as lines 60-63 compute.
- `CloneModel.ChooseEventType`: line 76 writes into an unsized vector too. The as-written reading of that code is listed under Findings.
- `CloneModel.AfterRemoveClone`: the position loop at src/Tumour.cpp:171-173 runs over `clones`, not over the deme's list. The model renumbers the deme's list, as evidently intended.
- `CloneTumour.Tumour.CreateClone`, `CloneTumour.Tumour.CreateDriverGenotype`: the source passes no `index` to the new clone (src/Tumour.cpp:263) or the new genotype (lines 270-272); what they store there is set by the `Clone` and `DriverGenotype` constructors, which are not part of this model. The model assumes each new element records its position in `clones` or `driver_genotypes` as its `index`, the value `remove_clone` (line 169) and `remove_driver_genotype` (line 180) erase at. `CloneDivision.CreatedClone`, `CloneDivision.DriverDaughter`, `CloneDivision.NewClone` and `CloneDivision.NewGenotype` make the same assumption, and the invariants `ClonesIndexed` and `GenotypesIndexed` rest on it.
- `CloneTumour.Tumour.CreateClone`: src/Tumour.cpp:266 lists the address of a local copy. The model lists the new clone's position, and the new clone copies the parent clone's methylation array.
- `CloneTumour.Tumour.DivideWithoutDriver`: line 263 gives the new clone `driver_index = driver_genotypes.size()`, which is past the end in this branch. The model gives it the genotype the clone is created in.
- `CloneTumour.Tumour.CellDivision`: line 198 reads `clones[chosen_clone]` with a position in the deme's list. The model reads the chosen clone of the deme's list, as the rest of the function does.
- `CloneTumour.Tumour.DemeFission`: the source builds the new deme but never stores it. The model appends it to `demes`. The test `next_fission == fission_times[0]` is modelled as written: `next_fission` is never advanced.
- `CloneTumour.Tumour.LoseGenotypeCell`: as in the source, a genotype is removed whenever it is not immortal, whatever its population. Every genotype the source makes is immortal (`initialise` passes `true` at src/Tumour.cpp:7, `create_driver_genotype` passes 1 at line 272), so in a run of the source this removal, in `cell_division` and in `cell_death`, never happens. The model keeps the branch.
- CLI handling, configuration parsing (`src/main.cpp`) and file output (`include/methdemon/output.hpp`) are I/O and are not modelled.

## Findings

| source | as written | input that shows it | evidently intended | confidence | as-written member | corrected member |
|---|---|---|---|---|---|---|
| src/Tumour.cpp:75-95 | `cum_rates` holds [birth, death] without accumulating, and the draw is scaled by the death rate alone | birth rate 1, death rate 1, u = 0.75: the draw is 0.75 < 1, giving "birth" | running totals [birth, birth + death], as `chooseEventType` in src/tumour.cpp builds them; the draw 1.5 gives "death" | not executed | CloneModel.EventTypeDiscrepancy | CloneModel.ChooseEventType |
| src/Tumour.cpp:129-137 | `move_cells` erases entries from the parent's list without telling the remaining clones their new `index_in_deme` | deme 0 holds clones [0, 1] and moves position 0: clone 1 is now first but still records position 1 | retell the remaining clones their positions, as `remove_clone` does | not executed | CloneModel.MoveCellsAsWrittenBreaksListing | CloneModel.MoveCellsKeepsListing |
