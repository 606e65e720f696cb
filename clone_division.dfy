/** `cell_division` of the older design (`src/Tumour.cpp`) as specification
    functions on the part of the tumour a division reads and writes: the
    three vectors, the two identity counters and the event counter. Each
    step of the division (`methylation` in place, `create_clone`, a daughter
    with drivers, the loop over the two daughters, the two branches, the
    whole division) is a function of the state before it, and the lemmas
    give the outcome: which clones and genotypes are appended and what they
    carry, what stays as it was, and what the tallies grow by. */
module CloneDivision {
  import opened Selection
  import opened Parameters
  import opened CloneModel

  /** What one division reads and writes: `clones`, `driver_genotypes`,
      `demes`, `next_genotype_id`, `next_driver_genotype_id` and the event
      counter. */
  datatype Lineage = Lineage(
    clones: seq<Clone>,
    genotypes: seq<DriverGenotype>,
    demes: seq<Deme>,
    nextGenotypeId: int,
    nextDriverGenotypeId: int,
    counter: EventCounter)

  /** The random draws of one division, per daughter: the Poisson numbers of
      new birth and migration drivers, the birth and migration rates a new
      genotype draws (`set_birth_rate`, `set_migration_rate`), and the
      per-locus uniform draws of that daughter's methylation pass. */
  datatype DivisionDraws = DivisionDraws(
    birthDrivers: seq<nat>,
    migDrivers: seq<nat>,
    birthRates: seq<real>,
    migrationRates: seq<real>,
    methDraws: seq<seq<real>>)

  /** Draws for two daughters, with one methylation draw per locus of an
      array of n loci. */
  predicate Sized(w: DivisionDraws, n: nat) {
    |w.birthDrivers| == 2 && |w.migDrivers| == 2 && |w.birthRates| == 2 && |w.migrationRates| == 2 &&
    |w.methDraws| == 2 && |w.methDraws[0]| == n && |w.methDraws[1]| == n
  }

  /** `choose_number_mutations` on the draws: the new drivers per daughter. */
  function Mutations(w: DivisionDraws): (m: seq<nat>)
    requires |w.birthDrivers| == 2 && |w.migDrivers| == 2
    ensures |m| == 2
    ensures forall i :: 0 <= i < 2 ==> (m[i] > 0 <==> HasDrivers(w, i))
  {
    ChooseNumberMutations(w.birthDrivers, w.migDrivers)
  }

  /** Daughter i gains a birth or a migration driver. */
  predicate HasDrivers(w: DivisionDraws, i: nat)
    requires i < |w.birthDrivers| && i < |w.migDrivers|
  {
    w.birthDrivers[i] > 0 || w.migDrivers[i] > 0
  }

  /** The number of daughters of a division that gain at least one driver:
      at most one per daughter, and none exactly when no daughter gains one. */
  function DriverDaughters(newMutations: seq<nat>): (n: nat)
    ensures n <= |newMutations|
    ensures n == 0 <==> forall i :: 0 <= i < |newMutations| ==> newMutations[i] == 0
  {
    if |newMutations| == 0 then 0
    else
      var k := |newMutations| - 1;
      DriverDaughters(newMutations[..k]) + (if newMutations[k] > 0 then 1 else 0)
  }

  /** Counting one more daughter adds one exactly when it gains drivers. */
  lemma DriverDaughtersStep(m: seq<nat>, i: nat)
    requires i < |m|
    ensures DriverDaughters(m[..i + 1]) == DriverDaughters(m[..i]) + (if m[i] > 0 then 1 else 0)
  {
    assert m[..i + 1][..i] == m[..i];
  }

  /** The two daughters' count: one per daughter with drivers. */
  lemma DriverDaughtersOfTwo(m: seq<nat>)
    requires |m| == 2
    ensures DriverDaughters(m[..0]) == 0
    ensures DriverDaughters(m[..1]) == (if m[0] > 0 then 1 else 0)
    ensures DriverDaughters(m) == (if m[0] > 0 then 1 else 0) + (if m[1] > 0 then 1 else 0)
  {
    DriverDaughtersStep(m, 0);
    DriverDaughtersStep(m, 1);
    assert m[..2] == m;
  }

  /** A genotype that takes the flips of one pass from `before` to `after`:
      `num_meth` grows by the 0-to-1 flips, `num_demeth` by the 1-to-0 ones. */
  function Tallied(genotype: DriverGenotype, before: seq<int>, after: seq<int>): DriverGenotype
    requires |before| == |after|
  {
    genotype.(numMeth := genotype.numMeth + Gains(before, after),
              numDemeth := genotype.numDemeth + Losses(before, after))
  }

  /** The event counter after the flips of one pass from `before` to `after`. */
  function Counted(counter: EventCounter, before: seq<int>, after: seq<int>): EventCounter
    requires |before| == |after|
  {
    counter.(methylation := counter.methylation + Gains(before, after),
             demethylation := counter.demethylation + Losses(before, after))
  }

  /** Genotype g and the counter take the flips of one pass. */
  function Credit(s: Lineage, g: nat, before: seq<int>, after: seq<int>): Lineage
    requires g < |s.genotypes| && |before| == |after|
  {
    s.(genotypes := s.genotypes[g := Tallied(s.genotypes[g], before, after)],
       counter := Counted(s.counter, before, after))
  }

  /** `methylation(clone x, genotype g)`: clone x's array takes one pass with
      `draws`, whose flips genotype g and the counter take. */
  function MethylatedInPlace(s: Lineage, x: nat, g: nat, draws: seq<real>, methRate: real, demethRate: real): Lineage
    requires x < |s.clones| && g < |s.genotypes| && |draws| == |s.clones[x].methArray|
  {
    var a := s.clones[x].methArray;
    var b := Methylate(a, draws, methRate, demethRate);
    Credit(s.(clones := s.clones[x := s.clones[x].(methArray := b)]), g, a, b)
  }

  /** `create_clone(demes[d], driver_genotypes[g])` for the dividing clone x:
      a clone of deme d with the next clone identity, g's identity, the next
      positions in d's list and in `clones`, the given driver index, and x's
      array after one pass with `draws`, appended to `clones` and, by its
      position, to d's list; genotype g and the counter take the pass's
      flips. */
  function CreatedClone(s: Lineage, d: nat, x: nat, g: nat, driverIndex: nat,
                        draws: seq<real>, methRate: real, demethRate: real): Lineage
    requires d < |s.demes| && x < |s.clones| && g < |s.genotypes| && |draws| == |s.clones[x].methArray|
  {
    var a := s.clones[x].methArray;
    var b := Methylate(a, draws, methRate, demethRate);
    var c := Clone(s.demes[d].identity, s.nextGenotypeId, s.genotypes[g].identity,
                   |s.demes[d].clonesList|, |s.clones|, driverIndex, b);
    Credit(s.(clones := s.clones + [c],
              demes := s.demes[d := s.demes[d].(clonesList := s.demes[d].clonesList + [|s.clones|])],
              nextGenotypeId := s.nextGenotypeId + 1), g, a, b)
  }

  /** Daughter i gains drivers: `create_clone` with the position the new
      genotype is about to take as driver index, the new clone recording the
      next genotype identity, and `create_driver_genotype` from clone x and
      genotype g: one immortal cell, child of x's genotype, with g's tallies
      (after the pass), the time, the next position, daughter i's driver
      counts and the rates it drew. */
  function DriverDaughter(s: Lineage, d: nat, x: nat, g: nat, w: DivisionDraws, i: nat,
                          methRate: real, demethRate: real, gensElapsed: real): Lineage
    requires d < |s.demes| && x < |s.clones| && g < |s.genotypes| && i < 2 && Sized(w, |s.clones[x].methArray|)
  {
    var t := CreatedClone(s, d, x, g, |s.genotypes|, w.methDraws[i], methRate, demethRate);
    var c := |s.clones|;
    var parent := t.genotypes[g];
    var genotype := DriverGenotype(1, s.clones[x].driverGenotype, s.nextDriverGenotypeId,
      w.birthDrivers[i], w.migDrivers[i], parent.numMeth, parent.numDemeth,
      true, w.birthRates[i], w.migrationRates[i], gensElapsed, |s.genotypes|);
    t.(clones := t.clones[c := t.clones[c].(driverGenotype := s.nextDriverGenotypeId)],
       genotypes := t.genotypes + [genotype],
       nextDriverGenotypeId := s.nextDriverGenotypeId + 1)
  }

  /** Pass i of the loop of `cell_division` over the daughters: a daughter
      with drivers is a `DriverDaughter`; otherwise clone x is methylated in
      place. */
  function Daughter(s: Lineage, d: nat, x: nat, g: nat, w: DivisionDraws, i: nat,
                    methRate: real, demethRate: real, gensElapsed: real): (r: Lineage)
    requires d < |s.demes| && x < |s.clones| && g < |s.genotypes| && i < 2 && Sized(w, |s.clones[x].methArray|)
    ensures |r.demes| == |s.demes| && x < |r.clones| && g < |r.genotypes|
    ensures |r.clones[x].methArray| == |s.clones[x].methArray|
  {
    if HasDrivers(w, i) then DriverDaughter(s, d, x, g, w, i, methRate, demethRate, gensElapsed)
    else MethylatedInPlace(s, x, g, w.methDraws[i], methRate, demethRate)
  }

  /** The first n passes of the loop over the daughters. */
  function AfterDaughters(s: Lineage, d: nat, x: nat, g: nat, w: DivisionDraws, n: nat,
                          methRate: real, demethRate: real, gensElapsed: real): (r: Lineage)
    requires d < |s.demes| && x < |s.clones| && g < |s.genotypes| && n <= 2 && Sized(w, |s.clones[x].methArray|)
    ensures |r.demes| == |s.demes| && x < |r.clones| && g < |r.genotypes|
    ensures |r.clones[x].methArray| == |s.clones[x].methArray|
    decreases n
  {
    if n == 0 then s
    else Daughter(AfterDaughters(s, d, x, g, w, n - 1, methRate, demethRate, gensElapsed),
                  d, x, g, w, n - 1, methRate, demethRate, gensElapsed)
  }

  /** The branch of `cell_division` where no daughter gains a driver:
      genotype g gains a cell, `create_clone` makes a clone in genotype g
      from clone x with the first pass, and clone x takes the second pass in
      place. */
  function WithoutDriver(s: Lineage, d: nat, x: nat, g: nat, w: DivisionDraws,
                         methRate: real, demethRate: real): Lineage
    requires d < |s.demes| && x < |s.clones| && g < |s.genotypes| && Sized(w, |s.clones[x].methArray|)
  {
    var t := s.(genotypes := s.genotypes[g := s.genotypes[g].(population := s.genotypes[g].population + 1)]);
    MethylatedInPlace(CreatedClone(t, d, x, g, g, w.methDraws[0], methRate, demethRate),
                      x, g, w.methDraws[1], methRate, demethRate)
  }

  /** The branch of `cell_division` where some daughter gains drivers, after
      the mutations are counted: the loop over both daughters, then, when
      both gained drivers, genotype g loses the dividing cell and is removed
      unless it is immortal. */
  function WithDrivers(s: Lineage, d: nat, x: nat, g: nat, w: DivisionDraws,
                       methRate: real, demethRate: real, gensElapsed: real): Lineage
    requires d < |s.demes| && x < |s.clones| && g < |s.genotypes| && GenotypesIndexed(s.genotypes)
    requires Sized(w, |s.clones[x].methArray|)
  {
    DaughtersIndexed(s, d, x, g, w, methRate, demethRate, gensElapsed);
    var t := AfterDaughters(s, d, x, g, w, 2, methRate, demethRate, gensElapsed);
    if HasDrivers(w, 0) && HasDrivers(w, 1) then t.(genotypes := LoseCell(t.genotypes, g)) else t
  }

  /** The new drivers of both daughters counted as mutations. */
  function Mutated(s: Lineage, w: DivisionDraws): Lineage
    requires |w.birthDrivers| == 2 && |w.migDrivers| == 2
  {
    var m := Mutations(w);
    s.(counter := s.counter.(mutation := s.counter.mutation + m[0] + m[1]))
  }

  /** The start of `cell_division`: one birth counted and deme d one cell
      larger. */
  function Born(s: Lineage, d: nat): Lineage
    requires d < |s.demes|
  {
    s.(demes := s.demes[d := s.demes[d].(population := s.demes[d].population + 1)],
       counter := s.counter.(birth := s.counter.birth + 1))
  }

  /** The middle of `cell_division`, for dividing clone x of deme d in
      genotype g: the branch without drivers, or the mutations counted and
      the branch with drivers. */
  function AfterDivide(s: Lineage, d: nat, x: nat, g: nat, w: DivisionDraws,
                       methRate: real, demethRate: real, gensElapsed: real): (r: Lineage)
    requires d < |s.demes| && x < |s.clones| && g < |s.genotypes| && GenotypesIndexed(s.genotypes)
    requires Sized(w, |s.clones[x].methArray|)
    ensures |r.demes| == |s.demes|
  {
    var m := Mutations(w);
    if m[0] == 0 && m[1] == 0 then WithoutDriver(s, d, x, g, w, methRate, demethRate)
    else
      WithDrivers(Mutated(s, w), d, x, g, w, methRate, demethRate, gensElapsed)
  }

  /** Deme d's sums recomputed over its list, as the last step of
      `cell_division` does. */
  function Recomputed(t: Lineage, d: nat): Lineage
    requires d < |t.demes|
  {
    var list := t.demes[d].clonesList;
    t.(demes := t.demes[d := t.demes[d].(sumBirthRates := Sum(ListBirthRates(t.clones, t.genotypes, list)),
                                        sumMigrationRates := Sum(ListMigrationRates(t.clones, t.genotypes, list)))])
  }

  /** `cell_division(counter, d, p)`: one birth is counted and deme d gains a
      cell; the clone at position p of its list divides in its own genotype
      (`AfterDivide`); then the deme's birth and migration sums are
      recomputed over its list. */
  function AfterCellDivision(s: Lineage, d: nat, p: nat, w: DivisionDraws,
                             methRate: real, demethRate: real, gensElapsed: real): Lineage
    requires d < |s.demes| && p < |s.demes[d].clonesList| && GenotypesIndexed(s.genotypes)
    requires s.demes[d].clonesList[p] < |s.clones|
    requires s.clones[s.demes[d].clonesList[p]].driverIndex < |s.genotypes|
    requires Sized(w, |s.clones[s.demes[d].clonesList[p]].methArray|)
  {
    var x := s.demes[d].clonesList[p];
    Recomputed(AfterDivide(Born(s, d), d, x, s.clones[x].driverIndex, w, methRate, demethRate, gensElapsed), d)
  }

  // ---------------------------------------------------------------------
  // The appended entries in closed form

  /** The j-th clone a division appends for a daughter with drivers, holding
      the array b: deme d's identity, the next clone identity, genotype
      identity, list position, clone position and genotype position, each j
      past the state's. */
  function NewClone(s: Lineage, d: nat, j: nat, b: seq<int>): Clone
    requires d < |s.demes|
  {
    Clone(s.demes[d].identity, s.nextGenotypeId + j, s.nextDriverGenotypeId + j,
          |s.demes[d].clonesList| + j, |s.clones| + j, |s.genotypes| + j, b)
  }

  /** The j-th genotype a division appends, for daughter i: one immortal
      cell, child of clone x's genotype, with the next genotype identity and
      position j past the state's, daughter i's driver counts and rates, the
      methylation tallies of `tallies` and the time. */
  function NewGenotype(s: Lineage, x: nat, w: DivisionDraws, i: nat, j: nat, tallies: DriverGenotype,
                       gensElapsed: real): DriverGenotype
    requires x < |s.clones| && i < |w.birthDrivers| && i < |w.migDrivers| && i < |w.birthRates| && i < |w.migrationRates|
  {
    DriverGenotype(1, s.clones[x].driverGenotype, s.nextDriverGenotypeId + j,
      w.birthDrivers[i], w.migDrivers[i], tallies.numMeth, tallies.numDemeth,
      true, w.birthRates[i], w.migrationRates[i], gensElapsed, |s.genotypes| + j)
  }

  /** The array the second pass of a division with drivers starts from:
      clone x's own, methylated in place by the first pass unless the first
      daughter took that pass into a new clone. */
  function SecondStart(a: seq<int>, w: DivisionDraws, methRate: real, demethRate: real): seq<int>
    requires Sized(w, |a|)
  {
    if HasDrivers(w, 0) then a else Methylate(a, w.methDraws[0], methRate, demethRate)
  }

  /** The clones the daughters with drivers append, in daughter order, each
      holding its own daughter's pass. */
  function NewClones(s: Lineage, d: nat, x: nat, w: DivisionDraws, methRate: real, demethRate: real): (r: seq<Clone>)
    requires d < |s.demes| && x < |s.clones| && Sized(w, |s.clones[x].methArray|)
    ensures |r| == DriverDaughters(Mutations(w))
  {
    DriverDaughtersOfTwo(Mutations(w));
    var a0 := s.clones[x].methArray;
    var a1 := SecondStart(a0, w, methRate, demethRate);
    var k0 := if HasDrivers(w, 0) then 1 else 0;
    (if HasDrivers(w, 0) then [NewClone(s, d, 0, Methylate(a0, w.methDraws[0], methRate, demethRate))] else []) +
    (if HasDrivers(w, 1) then [NewClone(s, d, k0, Methylate(a1, w.methDraws[1], methRate, demethRate))] else [])
  }

  /** The genotypes the daughters with drivers append, in daughter order;
      each takes genotype g's tallies as they stand after its daughter's
      pass. */
  function NewGenotypes(s: Lineage, x: nat, g: nat, w: DivisionDraws, methRate: real, demethRate: real,
                        gensElapsed: real): (r: seq<DriverGenotype>)
    requires x < |s.clones| && g < |s.genotypes| && Sized(w, |s.clones[x].methArray|)
    ensures |r| == DriverDaughters(Mutations(w))
    ensures forall j :: 0 <= j < |r| ==> r[j].index == |s.genotypes| + j
  {
    DriverDaughtersOfTwo(Mutations(w));
    var a0 := s.clones[x].methArray;
    var b0 := Methylate(a0, w.methDraws[0], methRate, demethRate);
    var a1 := SecondStart(a0, w, methRate, demethRate);
    var once := Tallied(s.genotypes[g], a0, b0);
    var k0 := if HasDrivers(w, 0) then 1 else 0;
    (if HasDrivers(w, 0) then [NewGenotype(s, x, w, 0, 0, once, gensElapsed)] else []) +
    (if HasDrivers(w, 1) then [NewGenotype(s, x, w, 1, k0, Tallied(once, a1, Methylate(a1, w.methDraws[1], methRate, demethRate)), gensElapsed)] else [])
  }

  // ---------------------------------------------------------------------
  // Outcome of the loop over the daughters

  /** One pass of the loop, with a clone x's array and b that array after
      the pass's draws: a daughter with drivers appends one clone and one
      genotype and leaves clone x holding a; a daughter without leaves b in
      clone x. Either way genotype g and the counter take the flips from a to
      b and deme d's list gains the new positions. */
  lemma DaughterShape(s: Lineage, d: nat, x: nat, g: nat, w: DivisionDraws, i: nat,
                      methRate: real, demethRate: real, gensElapsed: real)
    requires d < |s.demes| && x < |s.clones| && g < |s.genotypes| && i < 2 && Sized(w, |s.clones[x].methArray|)
    ensures var r := Daughter(s, d, x, g, w, i, methRate, demethRate, gensElapsed);
      var a := s.clones[x].methArray;
      var b := Methylate(a, w.methDraws[i], methRate, demethRate);
      var k := if HasDrivers(w, i) then 1 else 0;
      |r.clones| == |s.clones| + k && |r.genotypes| == |s.genotypes| + k &&
      r.nextGenotypeId == s.nextGenotypeId + k && r.nextDriverGenotypeId == s.nextDriverGenotypeId + k &&
      r.clones[x] == s.clones[x].(methArray := if k == 1 then a else b) &&
      r.genotypes[g] == Tallied(s.genotypes[g], a, b) &&
      r.counter == Counted(s.counter, a, b) &&
      r.demes == s.demes[d := s.demes[d].(clonesList := s.demes[d].clonesList + Range(|s.clones|, |r.clones|))]
  {
    var r := Daughter(s, d, x, g, w, i, methRate, demethRate, gensElapsed);
    if HasDrivers(w, i) {
      assert Range(|s.clones|, |r.clones|) == [|s.clones|];
    } else {
      assert Range(|s.clones|, |r.clones|) == [];
      assert s.demes[d].clonesList + [] == s.demes[d].clonesList;
    }
  }

  /** One pass of the loop leaves every clone but x and every genotype but g
      that were there before it as they were. */
  lemma DaughterKeeps(s: Lineage, d: nat, x: nat, g: nat, w: DivisionDraws, i: nat,
                      methRate: real, demethRate: real, gensElapsed: real)
    requires d < |s.demes| && x < |s.clones| && g < |s.genotypes| && i < 2 && Sized(w, |s.clones[x].methArray|)
    ensures var r := Daughter(s, d, x, g, w, i, methRate, demethRate, gensElapsed);
      |s.clones| <= |r.clones| && |s.genotypes| <= |r.genotypes| &&
      r.clones[..|s.clones|] == s.clones[x := r.clones[x]] &&
      r.genotypes[..|s.genotypes|] == s.genotypes[g := r.genotypes[g]]
  {
    var r := Daughter(s, d, x, g, w, i, methRate, demethRate, gensElapsed);
    if !HasDrivers(w, i) {
      assert r.clones[..|s.clones|] == r.clones && r.genotypes[..|s.genotypes|] == r.genotypes;
    }
  }

  /** A daughter with drivers appends a clone of deme d holding b, with the
      next clone identity, the next genotype identity, the next positions in
      d's list and in `clones`, and the next genotype position as its driver
      index; and a genotype of one immortal cell, child of clone x's genotype,
      with the next genotype identity, the daughter's driver counts, genotype
      g's tallies after the pass, the daughter's rates, the time and the next
      position. */
  lemma DaughterAppends(s: Lineage, d: nat, x: nat, g: nat, w: DivisionDraws, i: nat,
                        methRate: real, demethRate: real, gensElapsed: real)
    requires d < |s.demes| && x < |s.clones| && g < |s.genotypes| && i < 2 && Sized(w, |s.clones[x].methArray|)
    requires HasDrivers(w, i)
    ensures var r := Daughter(s, d, x, g, w, i, methRate, demethRate, gensElapsed);
      var a := s.clones[x].methArray;
      var b := Methylate(a, w.methDraws[i], methRate, demethRate);
      |r.clones| == |s.clones| + 1 && |r.genotypes| == |s.genotypes| + 1 &&
      r.clones[|s.clones|] == Clone(s.demes[d].identity, s.nextGenotypeId, s.nextDriverGenotypeId,
        |s.demes[d].clonesList|, |s.clones|, |s.genotypes|, b) &&
      r.genotypes[|s.genotypes|] == DriverGenotype(1, s.clones[x].driverGenotype, s.nextDriverGenotypeId,
        w.birthDrivers[i], w.migDrivers[i], Tallied(s.genotypes[g], a, b).numMeth,
        Tallied(s.genotypes[g], a, b).numDemeth, true, w.birthRates[i], w.migrationRates[i],
        gensElapsed, |s.genotypes|)
  {
  }

  /** The state after the first daughter, from which the second starts. */
  lemma FirstDaughter(s: Lineage, d: nat, x: nat, g: nat, w: DivisionDraws,
                      methRate: real, demethRate: real, gensElapsed: real)
    requires d < |s.demes| && x < |s.clones| && g < |s.genotypes| && Sized(w, |s.clones[x].methArray|)
    ensures AfterDaughters(s, d, x, g, w, 1, methRate, demethRate, gensElapsed) ==
            Daughter(s, d, x, g, w, 0, methRate, demethRate, gensElapsed)
  {
    assert AfterDaughters(s, d, x, g, w, 0, methRate, demethRate, gensElapsed) == s;
  }

  /** One pass of the loop keeps every genotype at its own position. */
  lemma DaughterIndexed(s: Lineage, d: nat, x: nat, g: nat, w: DivisionDraws, i: nat,
                        methRate: real, demethRate: real, gensElapsed: real)
    requires d < |s.demes| && x < |s.clones| && g < |s.genotypes| && i < 2 && Sized(w, |s.clones[x].methArray|)
    requires GenotypesIndexed(s.genotypes)
    ensures GenotypesIndexed(Daughter(s, d, x, g, w, i, methRate, demethRate, gensElapsed).genotypes)
  {
    var r := Daughter(s, d, x, g, w, i, methRate, demethRate, gensElapsed);
    DaughterKeeps(s, d, x, g, w, i, methRate, demethRate, gensElapsed);
    DaughterShape(s, d, x, g, w, i, methRate, demethRate, gensElapsed);
    forall h | 0 <= h < |r.genotypes|
      ensures r.genotypes[h].index == h
    {
      if h < |s.genotypes| {
        assert r.genotypes[h] == r.genotypes[..|s.genotypes|][h];
      } else {
        DaughterAppends(s, d, x, g, w, i, methRate, demethRate, gensElapsed);
      }
    }
  }

  /** The loop over both daughters keeps every genotype at its own position. */
  lemma DaughtersIndexed(s: Lineage, d: nat, x: nat, g: nat, w: DivisionDraws,
                         methRate: real, demethRate: real, gensElapsed: real)
    requires d < |s.demes| && x < |s.clones| && g < |s.genotypes| && Sized(w, |s.clones[x].methArray|)
    requires GenotypesIndexed(s.genotypes)
    ensures GenotypesIndexed(AfterDaughters(s, d, x, g, w, 2, methRate, demethRate, gensElapsed).genotypes)
  {
    FirstDaughter(s, d, x, g, w, methRate, demethRate, gensElapsed);
    DaughterIndexed(s, d, x, g, w, 0, methRate, demethRate, gensElapsed);
    var s1 := AfterDaughters(s, d, x, g, w, 1, methRate, demethRate, gensElapsed);
    DaughterIndexed(s1, d, x, g, w, 1, methRate, demethRate, gensElapsed);
  }

  /** The loop over both daughters, in outline. Write a0 for clone x's array,
      b0 for a0 after the first pass, a1 for x's array before the second pass
      (b0 when the first daughter has no drivers, a0 otherwise) and b1 for a1
      after the second pass. One clone and one genotype are appended per
      daughter with drivers; clone x ends holding a1 when the second daughter
      has drivers and b1 otherwise, with nothing else of it changed; genotype
      g and the counter take the flips of both passes; and deme d's list
      gains the new positions. */
  lemma DaughtersShape(s: Lineage, d: nat, x: nat, g: nat, w: DivisionDraws,
                       methRate: real, demethRate: real, gensElapsed: real)
    requires d < |s.demes| && x < |s.clones| && g < |s.genotypes| && Sized(w, |s.clones[x].methArray|)
    ensures var r := AfterDaughters(s, d, x, g, w, 2, methRate, demethRate, gensElapsed);
      var a0 := s.clones[x].methArray;
      var b0 := Methylate(a0, w.methDraws[0], methRate, demethRate);
      var a1 := SecondStart(a0, w, methRate, demethRate);
      var b1 := Methylate(a1, w.methDraws[1], methRate, demethRate);
      var k := DriverDaughters(Mutations(w));
      |r.clones| == |s.clones| + k && |r.genotypes| == |s.genotypes| + k &&
      r.nextGenotypeId == s.nextGenotypeId + k && r.nextDriverGenotypeId == s.nextDriverGenotypeId + k &&
      r.clones[x] == s.clones[x].(methArray := if HasDrivers(w, 1) then a1 else b1) &&
      r.genotypes[g] == Tallied(Tallied(s.genotypes[g], a0, b0), a1, b1) &&
      r.counter == Counted(Counted(s.counter, a0, b0), a1, b1) &&
      r.demes == s.demes[d := s.demes[d].(clonesList := s.demes[d].clonesList + Range(|s.clones|, |r.clones|))]
  {
    FirstDaughter(s, d, x, g, w, methRate, demethRate, gensElapsed);
    var s1 := AfterDaughters(s, d, x, g, w, 1, methRate, demethRate, gensElapsed);
    var r := AfterDaughters(s, d, x, g, w, 2, methRate, demethRate, gensElapsed);
    DaughterShape(s, d, x, g, w, 0, methRate, demethRate, gensElapsed);
    DaughterShape(s1, d, x, g, w, 1, methRate, demethRate, gensElapsed);
    DriverDaughtersOfTwo(Mutations(w));
    assert Range(|s.clones|, |r.clones|) == Range(|s.clones|, |s1.clones|) + Range(|s1.clones|, |r.clones|);
    assert s.demes[d].clonesList + Range(|s.clones|, |r.clones|) ==
           s.demes[d].clonesList + Range(|s.clones|, |s1.clones|) + Range(|s1.clones|, |r.clones|);
  }

  /** The loop over both daughters leaves every clone but x and every
      genotype but g that were there before it as they were. */
  lemma DaughtersKeep(s: Lineage, d: nat, x: nat, g: nat, w: DivisionDraws,
                      methRate: real, demethRate: real, gensElapsed: real)
    requires d < |s.demes| && x < |s.clones| && g < |s.genotypes| && Sized(w, |s.clones[x].methArray|)
    ensures var r := AfterDaughters(s, d, x, g, w, 2, methRate, demethRate, gensElapsed);
      |s.clones| <= |r.clones| && |s.genotypes| <= |r.genotypes| &&
      r.clones[..|s.clones|] == s.clones[x := r.clones[x]] &&
      r.genotypes[..|s.genotypes|] == s.genotypes[g := r.genotypes[g]]
  {
    FirstDaughter(s, d, x, g, w, methRate, demethRate, gensElapsed);
    var s1 := AfterDaughters(s, d, x, g, w, 1, methRate, demethRate, gensElapsed);
    var r := AfterDaughters(s, d, x, g, w, 2, methRate, demethRate, gensElapsed);
    DaughterKeeps(s, d, x, g, w, 0, methRate, demethRate, gensElapsed);
    DaughterKeeps(s1, d, x, g, w, 1, methRate, demethRate, gensElapsed);
    assert r.clones[..|s.clones|] == r.clones[..|s1.clones|][..|s.clones|];
    assert r.genotypes[..|s.genotypes|] == r.genotypes[..|s1.genotypes|][..|s.genotypes|];
  }

  /** The entries the loop over both daughters appends, in daughter order
      (a0, b0, a1, b1 as in `DaughtersShape`, k0 the number of appended
      entries before the second daughter's). Each daughter with drivers
      appends a clone of deme d holding its own pass's array, with the next
      clone identity, genotype identity, list position, clone position and
      genotype position; and a genotype of one immortal cell, child of clone
      x's genotype, with that genotype identity and position, the daughter's
      own driver counts and rates, genotype g's tallies as they stand after
      the daughter's pass, and the time. */
  lemma DaughtersAppend(s: Lineage, d: nat, x: nat, g: nat, w: DivisionDraws,
                        methRate: real, demethRate: real, gensElapsed: real)
    requires d < |s.demes| && x < |s.clones| && g < |s.genotypes| && Sized(w, |s.clones[x].methArray|)
    ensures var r := AfterDaughters(s, d, x, g, w, 2, methRate, demethRate, gensElapsed);
      var a0 := s.clones[x].methArray;
      var b0 := Methylate(a0, w.methDraws[0], methRate, demethRate);
      var a1 := SecondStart(a0, w, methRate, demethRate);
      var b1 := Methylate(a1, w.methDraws[1], methRate, demethRate);
      var k0 := if HasDrivers(w, 0) then 1 else 0;
      var once := Tallied(s.genotypes[g], a0, b0);
      (HasDrivers(w, 0) ==>
        |s.clones| < |r.clones| && |s.genotypes| < |r.genotypes| &&
        r.clones[|s.clones|] == NewClone(s, d, 0, b0) &&
        r.genotypes[|s.genotypes|] == NewGenotype(s, x, w, 0, 0, once, gensElapsed)) &&
      (HasDrivers(w, 1) ==>
        |s.clones| + k0 < |r.clones| && |s.genotypes| + k0 < |r.genotypes| &&
        r.clones[|s.clones| + k0] == NewClone(s, d, k0, b1) &&
        r.genotypes[|s.genotypes| + k0] == NewGenotype(s, x, w, 1, k0, Tallied(once, a1, b1), gensElapsed))
  {
    FirstDaughter(s, d, x, g, w, methRate, demethRate, gensElapsed);
    var s1 := AfterDaughters(s, d, x, g, w, 1, methRate, demethRate, gensElapsed);
    var r := AfterDaughters(s, d, x, g, w, 2, methRate, demethRate, gensElapsed);
    DaughterShape(s, d, x, g, w, 0, methRate, demethRate, gensElapsed);
    DaughterKeeps(s1, d, x, g, w, 1, methRate, demethRate, gensElapsed);
    if HasDrivers(w, 0) {
      DaughterAppends(s, d, x, g, w, 0, methRate, demethRate, gensElapsed);
      assert r.clones[|s.clones|] == r.clones[..|s1.clones|][|s.clones|];
      assert r.genotypes[|s.genotypes|] == r.genotypes[..|s1.genotypes|][|s.genotypes|];
    }
    if HasDrivers(w, 1) {
      DaughterAppends(s1, d, x, g, w, 1, methRate, demethRate, gensElapsed);
    }
  }

  /** Entries that agree with `NewClones` daughter by daughter are
      `NewClones`. */
  lemma NewClonesFrom(tail: seq<Clone>, s: Lineage, d: nat, x: nat, w: DivisionDraws,
                      methRate: real, demethRate: real)
    requires d < |s.demes| && x < |s.clones| && Sized(w, |s.clones[x].methArray|)
    requires var a0 := s.clones[x].methArray;
      var a1 := SecondStart(a0, w, methRate, demethRate);
      var k0 := if HasDrivers(w, 0) then 1 else 0;
      |tail| == k0 + (if HasDrivers(w, 1) then 1 else 0) &&
      (HasDrivers(w, 0) ==> tail[0] == NewClone(s, d, 0, Methylate(a0, w.methDraws[0], methRate, demethRate))) &&
      (HasDrivers(w, 1) ==> tail[k0] == NewClone(s, d, k0, Methylate(a1, w.methDraws[1], methRate, demethRate)))
    ensures tail == NewClones(s, d, x, w, methRate, demethRate)
  {
  }

  /** Entries that agree with `NewGenotypes` daughter by daughter are
      `NewGenotypes`. */
  lemma NewGenotypesFrom(tail: seq<DriverGenotype>, s: Lineage, x: nat, g: nat, w: DivisionDraws,
                         methRate: real, demethRate: real, gensElapsed: real)
    requires x < |s.clones| && g < |s.genotypes| && Sized(w, |s.clones[x].methArray|)
    requires var a0 := s.clones[x].methArray;
      var b0 := Methylate(a0, w.methDraws[0], methRate, demethRate);
      var a1 := SecondStart(a0, w, methRate, demethRate);
      var once := Tallied(s.genotypes[g], a0, b0);
      var k0 := if HasDrivers(w, 0) then 1 else 0;
      |tail| == k0 + (if HasDrivers(w, 1) then 1 else 0) &&
      (HasDrivers(w, 0) ==> tail[0] == NewGenotype(s, x, w, 0, 0, once, gensElapsed)) &&
      (HasDrivers(w, 1) ==> tail[k0] == NewGenotype(s, x, w, 1, k0,
        Tallied(once, a1, Methylate(a1, w.methDraws[1], methRate, demethRate)), gensElapsed))
    ensures tail == NewGenotypes(s, x, g, w, methRate, demethRate, gensElapsed)
  {
  }

  /** The clones after the loop over both daughters in closed form: the old
      ones, clone x holding its final array, followed by `NewClones`. */
  lemma DaughtersClones(s: Lineage, d: nat, x: nat, g: nat, w: DivisionDraws,
                        methRate: real, demethRate: real, gensElapsed: real)
    requires d < |s.demes| && x < |s.clones| && g < |s.genotypes| && Sized(w, |s.clones[x].methArray|)
    ensures var r := AfterDaughters(s, d, x, g, w, 2, methRate, demethRate, gensElapsed);
      var a1 := SecondStart(s.clones[x].methArray, w, methRate, demethRate);
      var b1 := Methylate(a1, w.methDraws[1], methRate, demethRate);
      r.clones == s.clones[x := s.clones[x].(methArray := if HasDrivers(w, 1) then a1 else b1)] +
                  NewClones(s, d, x, w, methRate, demethRate)
  {
    var r := AfterDaughters(s, d, x, g, w, 2, methRate, demethRate, gensElapsed);
    DaughtersShape(s, d, x, g, w, methRate, demethRate, gensElapsed);
    DaughtersKeep(s, d, x, g, w, methRate, demethRate, gensElapsed);
    DaughtersAppend(s, d, x, g, w, methRate, demethRate, gensElapsed);
    DriverDaughtersOfTwo(Mutations(w));
    var n := |s.clones|;
    NewClonesFrom(r.clones[n..], s, d, x, w, methRate, demethRate);
    assert r.clones == r.clones[..n] + r.clones[n..];
  }

  /** The genotypes after the loop over both daughters in closed form: the
      old ones, genotype g holding the tallies of both passes, followed by
      `NewGenotypes`. */
  lemma DaughtersGenotypes(s: Lineage, d: nat, x: nat, g: nat, w: DivisionDraws,
                           methRate: real, demethRate: real, gensElapsed: real)
    requires d < |s.demes| && x < |s.clones| && g < |s.genotypes| && Sized(w, |s.clones[x].methArray|)
    ensures var r := AfterDaughters(s, d, x, g, w, 2, methRate, demethRate, gensElapsed);
      var a0 := s.clones[x].methArray;
      var b0 := Methylate(a0, w.methDraws[0], methRate, demethRate);
      var a1 := SecondStart(a0, w, methRate, demethRate);
      var b1 := Methylate(a1, w.methDraws[1], methRate, demethRate);
      r.genotypes == s.genotypes[g := Tallied(Tallied(s.genotypes[g], a0, b0), a1, b1)] +
                     NewGenotypes(s, x, g, w, methRate, demethRate, gensElapsed)
  {
    var r := AfterDaughters(s, d, x, g, w, 2, methRate, demethRate, gensElapsed);
    DaughtersShape(s, d, x, g, w, methRate, demethRate, gensElapsed);
    DaughtersKeep(s, d, x, g, w, methRate, demethRate, gensElapsed);
    DaughtersAppend(s, d, x, g, w, methRate, demethRate, gensElapsed);
    DriverDaughtersOfTwo(Mutations(w));
    var n := |s.genotypes|;
    NewGenotypesFrom(r.genotypes[n..], s, x, g, w, methRate, demethRate, gensElapsed);
    assert r.genotypes == r.genotypes[..n] + r.genotypes[n..];
  }

  // ---------------------------------------------------------------------
  // Outcome of a whole division

  /** A division in which no daughter gains a driver. With a clone x's array:
      one clone is appended in x's genotype g, holding a after the first
      pass, with deme d's identity, the next clone identity, g's identity,
      the next positions and g as its driver index; clone x holds a after the
      second pass; genotype g gains a cell and the flips of both passes, as
      does the counter, which also counts the birth and no mutation; deme d
      gains a cell and the new position, and its sums are recomputed over its
      list; nothing else changes. */
  lemma CellDivisionWithoutDriver(s: Lineage, d: nat, p: nat, w: DivisionDraws,
                                  methRate: real, demethRate: real, gensElapsed: real)
    requires d < |s.demes| && p < |s.demes[d].clonesList| && GenotypesIndexed(s.genotypes)
    requires s.demes[d].clonesList[p] < |s.clones|
    requires s.clones[s.demes[d].clonesList[p]].driverIndex < |s.genotypes|
    requires Sized(w, |s.clones[s.demes[d].clonesList[p]].methArray|)
    requires !HasDrivers(w, 0) && !HasDrivers(w, 1)
    ensures var r := AfterCellDivision(s, d, p, w, methRate, demethRate, gensElapsed);
      var x := s.demes[d].clonesList[p];
      var g := s.clones[x].driverIndex;
      var a := s.clones[x].methArray;
      var b0 := Methylate(a, w.methDraws[0], methRate, demethRate);
      var b1 := Methylate(a, w.methDraws[1], methRate, demethRate);
      var list := s.demes[d].clonesList + [|s.clones|];
      r.clones == s.clones[x := s.clones[x].(methArray := b1)] +
        [Clone(s.demes[d].identity, s.nextGenotypeId, s.genotypes[g].identity,
               |s.demes[d].clonesList|, |s.clones|, g, b0)] &&
      r.genotypes == s.genotypes[g := Tallied(Tallied(s.genotypes[g].(population := s.genotypes[g].population + 1),
                                                      a, b0), a, b1)] &&
      r.nextGenotypeId == s.nextGenotypeId + 1 && r.nextDriverGenotypeId == s.nextDriverGenotypeId &&
      r.counter == Counted(Counted(s.counter.(birth := s.counter.birth + 1), a, b0), a, b1) &&
      r.demes == s.demes[d := s.demes[d].(population := s.demes[d].population + 1, clonesList := list,
        sumBirthRates := Sum(ListBirthRates(r.clones, r.genotypes, list)),
        sumMigrationRates := Sum(ListMigrationRates(r.clones, r.genotypes, list)))]
  {
    var x := s.demes[d].clonesList[p];
    var a := s.clones[x].methArray;
    var b1 := Methylate(a, w.methDraws[1], methRate, demethRate);
    var c := Clone(s.demes[d].identity, s.nextGenotypeId, s.genotypes[s.clones[x].driverIndex].identity,
                   |s.demes[d].clonesList|, |s.clones|, s.clones[x].driverIndex,
                   Methylate(a, w.methDraws[0], methRate, demethRate));
    assert (s.clones + [c])[x := s.clones[x].(methArray := b1)] == s.clones[x := s.clones[x].(methArray := b1)] + [c];
  }

  /** The appended entries depend only on the vectors, the identity
      counters and deme d's identity and list, not on a population or the
      event counter. */
  lemma NewEntriesFrom(s: Lineage, t: Lineage, d: nat, x: nat, g: nat, w: DivisionDraws,
                       methRate: real, demethRate: real, gensElapsed: real)
    requires d < |s.demes| && x < |s.clones| && g < |s.genotypes| && Sized(w, |s.clones[x].methArray|)
    requires t.clones == s.clones && t.genotypes == s.genotypes && d < |t.demes|
    requires t.nextGenotypeId == s.nextGenotypeId && t.nextDriverGenotypeId == s.nextDriverGenotypeId
    requires t.demes[d].identity == s.demes[d].identity && t.demes[d].clonesList == s.demes[d].clonesList
    ensures NewClones(t, d, x, w, methRate, demethRate) == NewClones(s, d, x, w, methRate, demethRate)
    ensures NewGenotypes(t, x, g, w, methRate, demethRate, gensElapsed) ==
            NewGenotypes(s, x, g, w, methRate, demethRate, gensElapsed)
  {
  }

  /** The branch with drivers in closed form (a0, b0, a1, b1 as in
      `DaughtersShape`): the clones of `DaughtersClones` and the genotypes of `DaughtersGenotypes`,
      then `LoseCell` on genotype g when both daughters gained drivers; the
      identity counters grow by the number of daughters with drivers; the
      counter takes both passes' flips; deme d's list gains the new
      positions. */
  lemma WithDriversOutcome(s: Lineage, d: nat, x: nat, g: nat, w: DivisionDraws,
                           methRate: real, demethRate: real, gensElapsed: real)
    requires d < |s.demes| && x < |s.clones| && g < |s.genotypes| && GenotypesIndexed(s.genotypes)
    requires Sized(w, |s.clones[x].methArray|)
    ensures var r := WithDrivers(s, d, x, g, w, methRate, demethRate, gensElapsed);
      var a0 := s.clones[x].methArray;
      var b0 := Methylate(a0, w.methDraws[0], methRate, demethRate);
      var a1 := SecondStart(a0, w, methRate, demethRate);
      var b1 := Methylate(a1, w.methDraws[1], methRate, demethRate);
      var k := DriverDaughters(Mutations(w));
      var genotypes := s.genotypes[g := Tallied(Tallied(s.genotypes[g], a0, b0), a1, b1)] +
                       NewGenotypes(s, x, g, w, methRate, demethRate, gensElapsed);
      GenotypesIndexed(genotypes) &&
      r.clones == s.clones[x := s.clones[x].(methArray := if HasDrivers(w, 1) then a1 else b1)] +
                  NewClones(s, d, x, w, methRate, demethRate) &&
      r.genotypes == (if HasDrivers(w, 0) && HasDrivers(w, 1) then LoseCell(genotypes, g) else genotypes) &&
      r.nextGenotypeId == s.nextGenotypeId + k && r.nextDriverGenotypeId == s.nextDriverGenotypeId + k &&
      r.counter == Counted(Counted(s.counter, a0, b0), a1, b1) &&
      r.demes == s.demes[d := s.demes[d].(clonesList := s.demes[d].clonesList + Range(|s.clones|, |r.clones|))]
  {
    DaughtersClones(s, d, x, g, w, methRate, demethRate, gensElapsed);
    DaughtersGenotypes(s, d, x, g, w, methRate, demethRate, gensElapsed);
    DaughtersShape(s, d, x, g, w, methRate, demethRate, gensElapsed);
  }

  /** The state the branch with drivers starts from: the birth and the new
      drivers counted and deme d one cell larger. */
  lemma BornMutated(s: Lineage, d: nat, w: DivisionDraws)
    requires d < |s.demes| && |w.birthDrivers| == 2 && |w.migDrivers| == 2
    ensures var m := Mutations(w);
      Mutated(Born(s, d), w) ==
      s.(demes := s.demes[d := s.demes[d].(population := s.demes[d].population + 1)],
         counter := s.counter.(birth := s.counter.birth + 1, mutation := s.counter.mutation + m[0] + m[1]))
  {
  }

  /** The branch with drivers changes nothing but the genotypes after the
      loop over the daughters. */
  lemma WithDriversKeeps(s: Lineage, d: nat, x: nat, g: nat, w: DivisionDraws,
                         methRate: real, demethRate: real, gensElapsed: real)
    requires d < |s.demes| && x < |s.clones| && g < |s.genotypes| && GenotypesIndexed(s.genotypes)
    requires Sized(w, |s.clones[x].methArray|)
    ensures var t := WithDrivers(s, d, x, g, w, methRate, demethRate, gensElapsed);
      t == AfterDaughters(s, d, x, g, w, 2, methRate, demethRate, gensElapsed).(genotypes := t.genotypes)
  {
  }

  /** Deme d's sums recomputed over a list that is its old one plus the
      positions appended from n on, in a state whose deme d otherwise holds
      the given population. */
  lemma RecomputedDeme(demes: seq<Deme>, t: Lineage, d: nat, population: int, n: nat)
    requires d < |demes| && n <= |t.clones|
    requires t.demes == demes[d := demes[d].(population := population,
                                             clonesList := demes[d].clonesList + Range(n, |t.clones|))]
    ensures var r := Recomputed(t, d);
      var list := demes[d].clonesList + Range(n, |r.clones|);
      r.clones == t.clones && r.genotypes == t.genotypes &&
      r.demes == demes[d := demes[d].(population := population, clonesList := list,
        sumBirthRates := Sum(ListBirthRates(r.clones, r.genotypes, list)),
        sumMigrationRates := Sum(ListMigrationRates(r.clones, r.genotypes, list)))]
  {
  }

  /** A division in which some daughter gains drivers is the branch with
      drivers from the state with the birth and the new drivers counted and
      deme d's cell added, followed by the recomputation of d's sums. */
  lemma CellDivisionUnfolds(s: Lineage, d: nat, p: nat, w: DivisionDraws,
                            methRate: real, demethRate: real, gensElapsed: real)
    requires d < |s.demes| && p < |s.demes[d].clonesList| && GenotypesIndexed(s.genotypes)
    requires s.demes[d].clonesList[p] < |s.clones|
    requires s.clones[s.demes[d].clonesList[p]].driverIndex < |s.genotypes|
    requires Sized(w, |s.clones[s.demes[d].clonesList[p]].methArray|)
    requires HasDrivers(w, 0) || HasDrivers(w, 1)
    ensures var x := s.demes[d].clonesList[p];
      AfterCellDivision(s, d, p, w, methRate, demethRate, gensElapsed) ==
      Recomputed(WithDrivers(Mutated(Born(s, d), w), d, x, s.clones[x].driverIndex, w, methRate, demethRate, gensElapsed), d)
  {
  }

  /** The clones and genotypes after a division in which some daughter
      gains drivers (a0, b0 the first pass, a1, b1 the second, as in
      `DaughtersShape`). The clones are the old ones, clone x holding its
      final array, followed by `NewClones`; the genotypes are the old ones,
      genotype g holding both passes' flips, followed by `NewGenotypes`,
      each at its own position, after which, when both daughters gained
      drivers, genotype g loses the dividing cell and is removed unless it
      is immortal (`LoseCell`). */
  lemma CellDivisionDriverEntries(s: Lineage, d: nat, p: nat, w: DivisionDraws,
                                  methRate: real, demethRate: real, gensElapsed: real)
    requires d < |s.demes| && p < |s.demes[d].clonesList| && GenotypesIndexed(s.genotypes)
    requires s.demes[d].clonesList[p] < |s.clones|
    requires s.clones[s.demes[d].clonesList[p]].driverIndex < |s.genotypes|
    requires Sized(w, |s.clones[s.demes[d].clonesList[p]].methArray|)
    requires HasDrivers(w, 0) || HasDrivers(w, 1)
    ensures var r := AfterCellDivision(s, d, p, w, methRate, demethRate, gensElapsed);
      var x := s.demes[d].clonesList[p];
      var g := s.clones[x].driverIndex;
      var a0 := s.clones[x].methArray;
      var b0 := Methylate(a0, w.methDraws[0], methRate, demethRate);
      var a1 := SecondStart(a0, w, methRate, demethRate);
      var b1 := Methylate(a1, w.methDraws[1], methRate, demethRate);
      var genotypes := s.genotypes[g := Tallied(Tallied(s.genotypes[g], a0, b0), a1, b1)] +
                       NewGenotypes(s, x, g, w, methRate, demethRate, gensElapsed);
      GenotypesIndexed(genotypes) &&
      r.clones == s.clones[x := s.clones[x].(methArray := if HasDrivers(w, 1) then a1 else b1)] +
                  NewClones(s, d, x, w, methRate, demethRate) &&
      r.genotypes == (if HasDrivers(w, 0) && HasDrivers(w, 1) then LoseCell(genotypes, g) else genotypes)
  {
    var x := s.demes[d].clonesList[p];
    var g := s.clones[x].driverIndex;
    var born := Mutated(Born(s, d), w);
    CellDivisionUnfolds(s, d, p, w, methRate, demethRate, gensElapsed);
    WithDriversOutcome(born, d, x, g, w, methRate, demethRate, gensElapsed);
    NewEntriesFrom(s, born, d, x, g, w, methRate, demethRate, gensElapsed);
  }

  /** The tallies after a division in which some daughter gains drivers
      (a0, b0, a1, b1 as in `DaughtersShape`): both identity counters grow
      by the number of daughters with drivers, and the counter counts the
      birth, every new driver and the flips of both passes. */
  lemma CellDivisionDriverCounts(s: Lineage, d: nat, p: nat, w: DivisionDraws,
                                 methRate: real, demethRate: real, gensElapsed: real)
    requires d < |s.demes| && p < |s.demes[d].clonesList| && GenotypesIndexed(s.genotypes)
    requires s.demes[d].clonesList[p] < |s.clones|
    requires s.clones[s.demes[d].clonesList[p]].driverIndex < |s.genotypes|
    requires Sized(w, |s.clones[s.demes[d].clonesList[p]].methArray|)
    requires HasDrivers(w, 0) || HasDrivers(w, 1)
    ensures var r := AfterCellDivision(s, d, p, w, methRate, demethRate, gensElapsed);
      var x := s.demes[d].clonesList[p];
      var m := Mutations(w);
      var a0 := s.clones[x].methArray;
      var b0 := Methylate(a0, w.methDraws[0], methRate, demethRate);
      var a1 := SecondStart(a0, w, methRate, demethRate);
      var b1 := Methylate(a1, w.methDraws[1], methRate, demethRate);
      r.nextGenotypeId == s.nextGenotypeId + DriverDaughters(m) &&
      r.nextDriverGenotypeId == s.nextDriverGenotypeId + DriverDaughters(m) &&
      r.counter == Counted(Counted(s.counter.(birth := s.counter.birth + 1,
                                              mutation := s.counter.mutation + m[0] + m[1]), a0, b0), a1, b1)
  {
    var x := s.demes[d].clonesList[p];
    var g := s.clones[x].driverIndex;
    var born := Mutated(Born(s, d), w);
    CellDivisionUnfolds(s, d, p, w, methRate, demethRate, gensElapsed);
    BornMutated(s, d, w);
    DaughtersShape(born, d, x, g, w, methRate, demethRate, gensElapsed);
    WithDriversKeeps(born, d, x, g, w, methRate, demethRate, gensElapsed);
  }

  /** Deme d after a division in which some daughter gains drivers: one
      cell more, the positions of the appended clones added to its list,
      and its sums recomputed over that list; every other deme is as it
      was. */
  lemma CellDivisionDriverDemes(s: Lineage, d: nat, p: nat, w: DivisionDraws,
                                methRate: real, demethRate: real, gensElapsed: real)
    requires d < |s.demes| && p < |s.demes[d].clonesList| && GenotypesIndexed(s.genotypes)
    requires s.demes[d].clonesList[p] < |s.clones|
    requires s.clones[s.demes[d].clonesList[p]].driverIndex < |s.genotypes|
    requires Sized(w, |s.clones[s.demes[d].clonesList[p]].methArray|)
    requires HasDrivers(w, 0) || HasDrivers(w, 1)
    ensures var r := AfterCellDivision(s, d, p, w, methRate, demethRate, gensElapsed);
      var list := s.demes[d].clonesList + Range(|s.clones|, |r.clones|);
      r.demes == s.demes[d := s.demes[d].(population := s.demes[d].population + 1, clonesList := list,
        sumBirthRates := Sum(ListBirthRates(r.clones, r.genotypes, list)),
        sumMigrationRates := Sum(ListMigrationRates(r.clones, r.genotypes, list)))]
  {
    var x := s.demes[d].clonesList[p];
    var g := s.clones[x].driverIndex;
    var born := Mutated(Born(s, d), w);
    var t := WithDrivers(born, d, x, g, w, methRate, demethRate, gensElapsed);
    CellDivisionUnfolds(s, d, p, w, methRate, demethRate, gensElapsed);
    DaughtersShape(born, d, x, g, w, methRate, demethRate, gensElapsed);
    WithDriversKeeps(born, d, x, g, w, methRate, demethRate, gensElapsed);
    RecomputedDeme(s.demes, t, d, s.demes[d].population + 1, |s.clones|);
  }

}
