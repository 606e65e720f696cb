/** The values of the older, clone-based design (`src/Tumour.cpp`): clones,
    driver genotypes and demes held in flat vectors, the back-references each
    element stores (`index`, `index_in_deme`, `deme`, `driver_index`), and the
    specification of the container edits that must keep those references in
    step with positions.

    A deme's `clones_list` holds pointers to clones; here an entry is the
    position of its clone in `clones`. Erasing clone x moves every later clone
    down by one, and the model moves every stored entry above x down with it,
    so an entry goes on naming the clone it named. That is what the pointers
    are there for, not what they do: in the source a pointer keeps its
    address, so after the erase it names the clone that moved into its slot. */
module CloneModel {
  import opened Sequences
  import opened Selection
  import opened Parameters

  /** A clone of cells: its deme, its identity, the identity and position of
      its driver genotype, its positions in its deme's list and in `clones`,
      and its fCpG methylation array of 0s and 1s. */
  datatype Clone = Clone(
    deme: nat,
    identity: int,
    driverGenotype: int,
    indexInDeme: nat,
    index: nat,
    driverIndex: nat,
    methArray: seq<int>)

  /** A driver genotype: its population, parent and own identities, its
      mutation and methylation tallies, whether it is immortal, its rates, the
      time it arose and its position in `driver_genotypes`. */
  datatype DriverGenotype = DriverGenotype(
    population: int,
    parent: int,
    identity: int,
    numberOfDriverMutations: nat,
    numberOfMigrationMutations: nat,
    numMeth: nat,
    numDemeth: nat,
    immortal: bool,
    birthRate: real,
    migrationRate: real,
    originTime: real,
    index: nat)

  /** A deme: carrying capacity K, side, identity, population, fission count,
      death rate, cached rate sums and the list of its clones. */
  datatype Deme = Deme(
    capacity: int,
    side: Side,
    identity: nat,
    population: int,
    fissions: nat,
    deathRate: real,
    sumRates: real,
    sumBirthRates: real,
    sumMigrationRates: real,
    clonesList: seq<nat>)

  // ---------------------------------------------------------------------
  // Back-references and the invariants that tie them to positions

  /** Every clone's `index` is its position in `clones`. */
  predicate ClonesIndexed(clones: seq<Clone>) {
    forall i :: 0 <= i < |clones| ==> clones[i].index == i
  }

  /** Every driver genotype's `index` is its position. */
  predicate GenotypesIndexed(genotypes: seq<DriverGenotype>) {
    forall g :: 0 <= g < |genotypes| ==> genotypes[g].index == g
  }

  /** Every deme's identity is its position in `demes`. */
  predicate DemesNumbered(demes: seq<Deme>) {
    forall j :: 0 <= j < |demes| ==> demes[j].identity == j
  }

  /** Entry k of the list of deme j names a clone that records deme j and
      position k. */
  predicate ListedAt(clones: seq<Clone>, list: seq<nat>, j: nat, k: nat)
    requires k < |list|
  {
    list[k] < |clones| && clones[list[k]].deme == j && clones[list[k]].indexInDeme == k
  }

  /** Every entry of `list`, the list of deme j, is listed correctly. */
  predicate ListHolds(clones: seq<Clone>, list: seq<nat>, j: nat) {
    forall k :: 0 <= k < |list| ==> ListedAt(clones, list, j, k)
  }

  /** Every deme's list agrees with its clones' `deme` and `index_in_deme`. */
  predicate Listed(clones: seq<Clone>, demes: seq<Deme>) {
    forall j :: 0 <= j < |demes| ==> ListHolds(clones, demes[j].clonesList, j)
  }

  /** Clone i sits in the list of the deme it records, at the position it
      records. */
  predicate PlacedAt(clones: seq<Clone>, demes: seq<Deme>, i: nat)
    requires i < |clones|
  {
    var c := clones[i];
    c.deme < |demes| && c.indexInDeme < |demes[c.deme].clonesList| &&
    demes[c.deme].clonesList[c.indexInDeme] == i
  }

  /** Every clone sits where it records. With `Listed` this makes the lists
      and the clones' `deme` and `index_in_deme` two descriptions of one
      placement: every clone is in exactly one list, once. */
  predicate Placed(clones: seq<Clone>, demes: seq<Deme>) {
    forall i :: 0 <= i < |clones| ==> PlacedAt(clones, demes, i)
  }

  /** Every entry of `list` is a position in `clones`. */
  predicate InRange(list: seq<nat>, n: nat) {
    forall k :: 0 <= k < |list| ==> list[k] < n
  }

  /** A correctly listed deme never names a clone twice: two entries name
      clones that record two different positions. */
  lemma ListHoldsDistinct(clones: seq<Clone>, list: seq<nat>, j: nat)
    requires ListHolds(clones, list, j)
    ensures Distinct(list) && InRange(list, |clones|)
  {
    forall a, b | 0 <= a < b < |list| ensures list[a] != list[b] {
      assert ListedAt(clones, list, j, a) && ListedAt(clones, list, j, b);
    }
    forall k | 0 <= k < |list| ensures list[k] < |clones| {
      assert ListedAt(clones, list, j, k);
    }
  }

  // ---------------------------------------------------------------------
  // The rewrites of stored positions

  /** The loop `for i: clones[i].index = i`. */
  function Renumbered(clones: seq<Clone>): (r: seq<Clone>)
    ensures |r| == |clones| && ClonesIndexed(r)
    ensures forall i :: 0 <= i < |r| ==> r[i] == clones[i].(index := i)
  {
    seq(|clones|, i requires 0 <= i < |clones| => clones[i].(index := i))
  }

  /** The loop `for i: driver_genotypes[i].index = i`. */
  function RenumberedGenotypes(genotypes: seq<DriverGenotype>): (r: seq<DriverGenotype>)
    ensures |r| == |genotypes| && GenotypesIndexed(r)
    ensures forall g :: 0 <= g < |r| ==> r[g] == genotypes[g].(index := g)
  {
    seq(|genotypes|, g requires 0 <= g < |genotypes| => genotypes[g].(index := g))
  }

  /** The loop `for i: clones_list[i]->index_in_deme = i`, one write per
      entry in list order. */
  function SetPositions(clones: seq<Clone>, list: seq<nat>): (r: seq<Clone>)
    requires InRange(list, |clones|)
    ensures |r| == |clones|
  {
    if |list| == 0 then clones
    else
      var n := |list|;
      var prev := SetPositions(clones, list[..n - 1]);
      prev[list[n - 1] := prev[list[n - 1]].(indexInDeme := n - 1)]
  }

  /** Over a list without repeats, each listed clone ends up recording its
      position in the list; every other clone is left alone. */
  lemma {:induction false} SetPositionsAt(clones: seq<Clone>, list: seq<nat>)
    requires InRange(list, |clones|) && Distinct(list)
    ensures forall k :: 0 <= k < |list| ==>
      SetPositions(clones, list)[list[k]] == clones[list[k]].(indexInDeme := k)
    ensures forall i :: 0 <= i < |clones| && i !in list ==> SetPositions(clones, list)[i] == clones[i]
    ensures forall i :: 0 <= i < |clones| ==>
      SetPositions(clones, list)[i] == clones[i].(indexInDeme := SetPositions(clones, list)[i].indexInDeme)
  {
    if |list| > 0 {
      var n := |list|;
      var front := list[..n - 1];
      SetPositionsAt(clones, front);
      forall k | 0 <= k < n - 1 ensures list[k] in front && list[k] != list[n - 1] {
        assert front[k] == list[k];
      }
    }
  }

  /** What erasing clone x does to a stored position: those above x move
      down by one. */
  function Shift(y: nat, x: nat): nat {
    if y > x then y - 1 else y
  }

  /** Two positions other than the erased x that differ still differ once
      shifted: y, shifted, is not where clone z ends up. */
  lemma ShiftMissesOthers(y: nat, x: nat, z: nat)
    requires y != x && z != x && y != z
    ensures Shift(y, x) != Shift(z, x)
  {
  }

  /** `Shift` applied to every entry of a list. */
  function ShiftedList(list: seq<nat>, x: nat): (r: seq<nat>)
    ensures |r| == |list| && forall k :: 0 <= k < |r| ==> r[k] == Shift(list[k], x)
  {
    seq(|list|, k requires 0 <= k < |list| => Shift(list[k], x))
  }

  /** `Shift` applied to every deme's list. */
  function ShiftedDemes(demes: seq<Deme>, x: nat): (r: seq<Deme>)
    ensures |r| == |demes|
    ensures forall j :: 0 <= j < |r| ==> r[j] == demes[j].(clonesList := ShiftedList(demes[j].clonesList, x))
  {
    seq(|demes|, j requires 0 <= j < |demes| => demes[j].(clonesList := ShiftedList(demes[j].clonesList, x)))
  }

  // ---------------------------------------------------------------------
  // remove_clone

  /** The list of a deme after its entry p (naming clone x) is erased and the
      entries above x are shifted: it still names existing clones, none twice,
      and never x. */
  lemma ErasedListInRange(clones: seq<Clone>, list: seq<nat>, d: nat, p: nat)
    requires ListHolds(clones, list, d) && p < |list|
    ensures var x := list[p];
            x < |clones| && clones[x].indexInDeme == p && clones[x].deme == d &&
            var e := EraseAt(list, p);
            x !in e && InRange(e, |clones|) && Distinct(e) &&
            InRange(ShiftedList(e, x), |clones| - 1) && Distinct(ShiftedList(e, x))
  {
    var x := list[p];
    assert ListedAt(clones, list, d, p);
    ListHoldsDistinct(clones, list, d);
    var e := EraseAt(list, p);
    forall k | 0 <= k < |e| ensures e[k] != x && e[k] < |clones| {
      if k < p {
        assert e[k] == list[k];
      } else {
        assert e[k] == list[k + 1];
      }
    }
    forall a, b | 0 <= a < b < |e| ensures e[a] != e[b] {
      var a' := if a < p then a else a + 1;
      var b' := if b < p then b else b + 1;
      assert e[a] == list[a'] && e[b] == list[b'];
    }
  }

  /** Numbering the clones by position leaves every list's agreement as it
      was: `index` is not part of it. */
  lemma ListHoldsRenumbered(clones: seq<Clone>, list: seq<nat>, j: nat)
    requires ListHolds(clones, list, j)
    ensures ListHolds(Renumbered(clones), list, j)
  {
    forall k | 0 <= k < |list| ensures ListedAt(Renumbered(clones), list, j, k) {
      assert ListedAt(clones, list, j, k);
    }
  }

  /** The deme `remove_clone` edits: after erasing entry p and its clone x,
      then telling every remaining entry its position, the deme's list agrees
      with its clones again. */
  lemma RemoveCloneSameDeme(clones: seq<Clone>, list: seq<nat>, d: nat, p: nat)
    requires ListHolds(clones, list, d) && p < |list|
    ensures var x := list[p];
            var ld := ShiftedList(EraseAt(list, p), x);
            x < |clones| && InRange(ld, |clones| - 1) &&
            ListHolds(SetPositions(EraseAt(clones, x), ld), ld, d)
  {
    ErasedListInRange(clones, list, d, p);
    var x := list[p];
    var e := EraseAt(list, p);
    var ld := ShiftedList(e, x);
    var c := EraseAt(clones, x);
    var s := SetPositions(c, ld);
    SetPositionsAt(c, ld);
    forall k | 0 <= k < |ld| ensures ListedAt(s, ld, d, k) {
      var k0 := if k < p then k else k + 1;
      assert e[k] == list[k0];
      assert ListedAt(clones, list, d, k0);
      assert c[ld[k]] == clones[list[k0]];
    }
  }

  /** Every other deme: its entries, shifted past the erased clone, still
      name clones that record this deme and the same positions. */
  lemma RemoveCloneOtherDeme(clones: seq<Clone>, list: seq<nat>, d: nat, p: nat, other: seq<nat>, j: nat)
    requires ListHolds(clones, list, d) && p < |list|
    requires ListHolds(clones, other, j) && j != d
    ensures var x := list[p];
            var ld := ShiftedList(EraseAt(list, p), x);
            x < |clones| && InRange(ld, |clones| - 1) &&
            ListHolds(SetPositions(EraseAt(clones, x), ld), ShiftedList(other, x), j)
  {
    ErasedListInRange(clones, list, d, p);
    var x := list[p];
    var e := EraseAt(list, p);
    var ld := ShiftedList(e, x);
    var c := EraseAt(clones, x);
    var s := SetPositions(c, ld);
    SetPositionsAt(c, ld);
    var lj := ShiftedList(other, x);
    forall k | 0 <= k < |lj| ensures ListedAt(s, lj, j, k) {
      var y := other[k];
      assert ListedAt(clones, other, j, k);
      assert y != x;
      assert c[lj[k]] == clones[y];
      forall k2 | 0 <= k2 < |ld| ensures ld[k2] != lj[k] {
        var k3 := if k2 < p then k2 else k2 + 1;
        assert e[k2] == list[k3];
        assert ListedAt(clones, list, d, k3);
      }
    }
  }

  /** The state `remove_clone(demes[d], *demes[d].clones_list[p])` leaves:
      the entry is erased from the deme's list at the clone's
      `index_in_deme`, the clone is erased from `clones` at its `index`, the
      deme's remaining entries are told their positions and every clone its
      index. The source's position loop runs over `clones` instead of the
      deme's list; the model uses the deme's list, as evidently intended. */
  function AfterRemoveClone(clones: seq<Clone>, demes: seq<Deme>, d: nat, p: nat): (r: (seq<Clone>, seq<Deme>))
    requires ClonesIndexed(clones) && Listed(clones, demes)
    requires d < |demes| && p < |demes[d].clonesList|
  {
    assert ListHolds(clones, demes[d].clonesList, d);
    ErasedListInRange(clones, demes[d].clonesList, d, p);
    var c := clones[demes[d].clonesList[p]];
    var erased := demes[d].(clonesList := EraseAt(demes[d].clonesList, c.indexInDeme));
    var demes' := ShiftedDemes(demes[d := erased], c.index);
    (Renumbered(SetPositions(EraseAt(clones, c.index), demes'[d].clonesList)), demes')
  }

  /** `remove_clone` keeps every back-reference right: the clones are
      numbered by position again and every deme's list agrees with its
      clones. It removes exactly one clone and one entry of that deme's list,
      leaves every other list the same length and every deme's identity as
      it was. */
  lemma RemoveCloneKeepsListing(clones: seq<Clone>, demes: seq<Deme>, d: nat, p: nat)
    requires ClonesIndexed(clones) && Listed(clones, demes)
    requires d < |demes| && p < |demes[d].clonesList|
    ensures var r := AfterRemoveClone(clones, demes, d, p);
            ClonesIndexed(r.0) && Listed(r.0, r.1) &&
            |r.0| == |clones| - 1 && |r.1| == |demes| &&
            |r.1[d].clonesList| == |demes[d].clonesList| - 1 &&
            (forall j :: 0 <= j < |demes| && j != d ==> |r.1[j].clonesList| == |demes[j].clonesList|) &&
            (forall j :: 0 <= j < |demes| ==> r.1[j].identity == demes[j].identity)
  {
    var r := AfterRemoveClone(clones, demes, d, p);
    var list := demes[d].clonesList;
    assert ListHolds(clones, list, d);
    ErasedListInRange(clones, list, d, p);
    var x := list[p];
    var s := SetPositions(EraseAt(clones, x), r.1[d].clonesList);
    assert r.0 == Renumbered(s);
    forall j | 0 <= j < |demes| ensures ListHolds(r.0, r.1[j].clonesList, j) {
      if j == d {
        RemoveCloneSameDeme(clones, list, d, p);
      } else {
        assert ListHolds(clones, demes[j].clonesList, j);
        RemoveCloneOtherDeme(clones, list, d, p, demes[j].clonesList, j);
      }
      ListHoldsRenumbered(s, r.1[j].clonesList, j);
    }
  }

  /** An entry other than the erased one moves down one place when it was
      above it and keeps its place otherwise. */
  lemma ErasedPosition<T>(list: seq<T>, p: nat, k: nat)
    requires p < |list| && k < |list| && k != p
    ensures var k1 := if k < p then k else k - 1;
            k1 < |list| - 1 && EraseAt(list, p)[k1] == list[k]
  {
  }

  /** A clone i0 of the deme `remove_clone` edits, other than the erased
      clone x, ends up at its shifted position, recording the deme and its
      place in the deme's list after the erase. */
  lemma PlacedSameDeme(clones: seq<Clone>, list: seq<nat>, d: nat, p: nat, i0: nat)
    requires ListHolds(clones, list, d) && p < |list| && i0 < |clones|
    requires clones[i0].deme == d && clones[i0].indexInDeme < |list| && list[clones[i0].indexInDeme] == i0
    requires i0 != list[p]
    ensures var x := list[p];
            var ld := ShiftedList(EraseAt(list, p), x);
            x < |clones| && InRange(ld, |clones| - 1) && Shift(i0, x) < |clones| - 1 &&
            var t := SetPositions(EraseAt(clones, x), ld)[Shift(i0, x)];
            t == clones[i0].(indexInDeme := t.indexInDeme) &&
            t.indexInDeme < |ld| && ld[t.indexInDeme] == Shift(i0, x)
  {
    ErasedListInRange(clones, list, d, p);
    var x := list[p];
    var e := EraseAt(list, p);
    var ld := ShiftedList(e, x);
    var c := EraseAt(clones, x);
    SetPositionsAt(c, ld);
    var i := Shift(i0, x);
    assert c[i] == clones[i0];
    var k := clones[i0].indexInDeme;
    ErasedPosition(list, p, k);
    var k1 := if k < p then k else k - 1;
    assert ld[k1] == i;
  }

  /** A clone i0 of another deme j ends up at its shifted position with its
      deme and its place unchanged, where j's shifted list names it. */
  lemma PlacedOtherDeme(clones: seq<Clone>, list: seq<nat>, d: nat, p: nat, other: seq<nat>, j: nat, i0: nat)
    requires ListHolds(clones, list, d) && p < |list| && i0 < |clones| && j != d
    requires clones[i0].deme == j && clones[i0].indexInDeme < |other| && other[clones[i0].indexInDeme] == i0
    ensures var x := list[p];
            var ld := ShiftedList(EraseAt(list, p), x);
            x < |clones| && InRange(ld, |clones| - 1) && Shift(i0, x) < |clones| - 1 &&
            SetPositions(EraseAt(clones, x), ld)[Shift(i0, x)] == clones[i0] &&
            ShiftedList(other, x)[clones[i0].indexInDeme] == Shift(i0, x)
  {
    ErasedListInRange(clones, list, d, p);
    var x := list[p];
    var e := EraseAt(list, p);
    var ld := ShiftedList(e, x);
    var c := EraseAt(clones, x);
    SetPositionsAt(c, ld);
    var i := Shift(i0, x);
    assert c[i] == clones[i0];
    forall k2 | 0 <= k2 < |ld| ensures ld[k2] != i {
      var k3 := if k2 < p then k2 else k2 + 1;
      assert e[k2] == list[k3];
      assert ListedAt(clones, list, d, k3);
      ShiftMissesOthers(e[k2], x, i0);
    }
  }

  /** Clone i of the state `remove_clone` leaves still sits where it
      records. It was clone i, or clone i + 1 when i is at or above the
      erased clone x; in x's deme its position moves down past the erased
      entry, in any other deme it keeps its place. */
  lemma RemoveClonePlacedAt(clones: seq<Clone>, demes: seq<Deme>, d: nat, p: nat, i: nat)
    requires ClonesIndexed(clones) && Listed(clones, demes) && Placed(clones, demes)
    requires d < |demes| && p < |demes[d].clonesList| && i + 1 < |clones|
    ensures var r := AfterRemoveClone(clones, demes, d, p);
            i < |r.0| && PlacedAt(r.0, r.1, i)
  {
    var list := demes[d].clonesList;
    assert ListHolds(clones, list, d);
    ErasedListInRange(clones, list, d, p);
    var x := list[p];
    var e := EraseAt(list, p);
    var ld := ShiftedList(e, x);
    var s := SetPositions(EraseAt(clones, x), ld);
    var r := AfterRemoveClone(clones, demes, d, p);
    assert r.0 == Renumbered(s);
    assert r.1 == ShiftedDemes(demes[d := demes[d].(clonesList := e)], x);
    var i0 := if i < x then i else i + 1;
    assert Shift(i0, x) == i && i0 != x;
    assert PlacedAt(clones, demes, i0);
    var j := clones[i0].deme;
    if j == d {
      PlacedSameDeme(clones, list, d, p, i0);
    } else {
      assert ListHolds(clones, demes[j].clonesList, j);
      PlacedOtherDeme(clones, list, d, p, demes[j].clonesList, j, i0);
    }
  }

  /** `remove_clone` keeps every clone where it records. */
  lemma RemoveClonePlaced(clones: seq<Clone>, demes: seq<Deme>, d: nat, p: nat)
    requires ClonesIndexed(clones) && Listed(clones, demes)
    requires d < |demes| && p < |demes[d].clonesList|
    ensures var r := AfterRemoveClone(clones, demes, d, p);
            Placed(clones, demes) ==> Placed(r.0, r.1)
  {
    var r := AfterRemoveClone(clones, demes, d, p);
    RemoveCloneKeepsListing(clones, demes, d, p);
    if Placed(clones, demes) {
      forall i | 0 <= i < |r.0| ensures PlacedAt(r.0, r.1, i) {
        RemoveClonePlacedAt(clones, demes, d, p, i);
      }
    }
  }

  // ---------------------------------------------------------------------
  // pseudo_fission

  /** The clones at positions `moves` of deme d's list removed one after the
      other with `remove_clone`, as the loop of `pseudo_fission` does. Every
      back-reference stays right; one clone and one entry of d's list go per
      position; other demes keep their lists' lengths; nothing about a deme
      but its list changes. */
  function RemoveAll(clones: seq<Clone>, demes: seq<Deme>, d: nat, moves: seq<nat>): (r: (seq<Clone>, seq<Deme>))
    requires ClonesIndexed(clones) && Listed(clones, demes) && d < |demes|
    requires Fits(moves, |demes[d].clonesList|)
    ensures ClonesIndexed(r.0) && Listed(r.0, r.1)
    ensures |r.0| == |clones| - |moves| && |r.1| == |demes|
    ensures |r.1[d].clonesList| == |demes[d].clonesList| - |moves|
    ensures forall j :: 0 <= j < |demes| && j != d ==> |r.1[j].clonesList| == |demes[j].clonesList|
    ensures forall j :: 0 <= j < |demes| ==> r.1[j] == demes[j].(clonesList := r.1[j].clonesList)
    decreases |moves|
  {
    if |moves| == 0 then (clones, demes)
    else
      var n := |moves|;
      assert Fits(moves[..n - 1], |demes[d].clonesList|);
      var prev := RemoveAll(clones, demes, d, moves[..n - 1]);
      RemoveCloneKeepsListing(prev.0, prev.1, d, moves[n - 1]);
      AfterRemoveClone(prev.0, prev.1, d, moves[n - 1])
  }

  /** The loop of `pseudo_fission` keeps every clone in the list it
      records. */
  lemma {:induction false} RemoveAllPlaced(clones: seq<Clone>, demes: seq<Deme>, d: nat, moves: seq<nat>)
    requires ClonesIndexed(clones) && Listed(clones, demes) && d < |demes|
    requires Fits(moves, |demes[d].clonesList|)
    requires Placed(clones, demes)
    ensures var r := RemoveAll(clones, demes, d, moves);
            Placed(r.0, r.1)
    decreases |moves|
  {
    if |moves| > 0 {
      var n := |moves|;
      assert Fits(moves[..n - 1], |demes[d].clonesList|);
      RemoveAllPlaced(clones, demes, d, moves[..n - 1]);
      var prev := RemoveAll(clones, demes, d, moves[..n - 1]);
      RemoveClonePlaced(prev.0, prev.1, d, moves[n - 1]);
    }
  }

  // ---------------------------------------------------------------------
  // create_clone and methylation in place

  /** Appending a clone that records deme d, the next position in d's list
      and the next position in `clones`, and appending that position to d's
      list, keeps every back-reference right, in both directions. */
  lemma AddCloneKeepsListing(clones: seq<Clone>, demes: seq<Deme>, d: nat, c: Clone)
    requires ClonesIndexed(clones) && Listed(clones, demes) && d < |demes|
    requires c.deme == d && c.indexInDeme == |demes[d].clonesList| && c.index == |clones|
    ensures ClonesIndexed(clones + [c])
    ensures Listed(clones + [c], demes[d := demes[d].(clonesList := demes[d].clonesList + [|clones|])])
    ensures Placed(clones, demes) ==>
      Placed(clones + [c], demes[d := demes[d].(clonesList := demes[d].clonesList + [|clones|])])
  {
    var s := clones + [c];
    var r := demes[d := demes[d].(clonesList := demes[d].clonesList + [|clones|])];
    forall j | 0 <= j < |r| ensures ListHolds(s, r[j].clonesList, j) {
      assert ListHolds(clones, demes[j].clonesList, j);
      forall k | 0 <= k < |r[j].clonesList| ensures ListedAt(s, r[j].clonesList, j, k) {
        if j != d || k < |demes[d].clonesList| {
          assert ListedAt(clones, demes[j].clonesList, j, k);
        }
      }
    }
    if Placed(clones, demes) {
      forall i | 0 <= i < |s| ensures PlacedAt(s, r, i) {
        if i < |clones| {
          assert PlacedAt(clones, demes, i);
        }
      }
    }
  }

  /** Rewriting a clone in a way that keeps its deme and its two positions
      (a new methylation array, a new driver genotype identity) leaves every
      back-reference as it was. */
  lemma SamePlaceKeepsListing(clones: seq<Clone>, demes: seq<Deme>, x: nat, c: Clone)
    requires ClonesIndexed(clones) && Listed(clones, demes) && x < |clones|
    requires c.deme == clones[x].deme && c.indexInDeme == clones[x].indexInDeme && c.index == clones[x].index
    ensures ClonesIndexed(clones[x := c]) && Listed(clones[x := c], demes)
    ensures Placed(clones, demes) ==> Placed(clones[x := c], demes)
  {
    var s := clones[x := c];
    forall j | 0 <= j < |demes| ensures ListHolds(s, demes[j].clonesList, j) {
      assert ListHolds(clones, demes[j].clonesList, j);
      forall k | 0 <= k < |demes[j].clonesList| ensures ListedAt(s, demes[j].clonesList, j, k) {
        assert ListedAt(clones, demes[j].clonesList, j, k);
      }
    }
    if Placed(clones, demes) {
      forall i | 0 <= i < |s| ensures PlacedAt(s, demes, i) {
        assert PlacedAt(clones, demes, i);
      }
    }
  }

  /** A deme update that keeps every list and every identity (a population,
      a fission count or a cached rate sum) keeps every back-reference right. */
  lemma SameListsKeepListing(clones: seq<Clone>, demes: seq<Deme>, demes': seq<Deme>)
    requires Listed(clones, demes) && DemesNumbered(demes) && |demes'| == |demes|
    requires forall j :: 0 <= j < |demes| ==>
      demes'[j].clonesList == demes[j].clonesList && demes'[j].identity == demes[j].identity
    ensures Listed(clones, demes') && DemesNumbered(demes')
    ensures Placed(clones, demes) ==> Placed(clones, demes')
  {
    forall j | 0 <= j < |demes'| ensures ListHolds(clones, demes'[j].clonesList, j) {
      assert ListHolds(clones, demes[j].clonesList, j);
    }
    if Placed(clones, demes) {
      forall i | 0 <= i < |clones| ensures PlacedAt(clones, demes', i) {
        assert PlacedAt(clones, demes, i);
      }
    }
  }

  /** The positions a, a + 1, ..., b - 1. */
  function Range(a: nat, b: nat): (r: seq<nat>)
    requires a <= b
    ensures |r| == b - a && forall k :: 0 <= k < |r| ==> r[k] == a + k
  {
    seq(b - a, k requires 0 <= k < b - a => a + k)
  }

  // ---------------------------------------------------------------------
  // remove_driver_genotype

  /** `remove_driver_genotype(driver_genotypes[g])`: the genotype is erased at
      its stored `index` and every genotype is told its position. The list is
      one shorter, keeps its order, and every genotype records its position;
      nothing else about a genotype changes. */
  function AfterRemoveGenotype(genotypes: seq<DriverGenotype>, g: nat): (r: seq<DriverGenotype>)
    requires GenotypesIndexed(genotypes) && g < |genotypes|
    ensures |r| == |genotypes| - 1 && GenotypesIndexed(r)
    ensures forall i :: 0 <= i < g ==> r[i] == genotypes[i]
    ensures forall i :: g <= i < |r| ==> r[i] == genotypes[i + 1].(index := i)
  {
    RenumberedGenotypes(EraseAt(genotypes, genotypes[g].index))
  }

  /** `driver_genotypes[g].increment(-1)` and then
      `remove_driver_genotype` unless the genotype is immortal, as
      `cell_death` and `cell_division` do. Only `immortal` is tested, not the
      population. An immortal genotype stays in place one cell smaller; any
      other is gone and the rest close up behind it, still indexed. */
  function LoseCell(genotypes: seq<DriverGenotype>, g: nat): (r: seq<DriverGenotype>)
    requires GenotypesIndexed(genotypes) && g < |genotypes|
    ensures GenotypesIndexed(r)
    ensures genotypes[g].immortal ==>
      r == genotypes[g := genotypes[g].(population := genotypes[g].population - 1)]
    ensures !genotypes[g].immortal ==>
      |r| == |genotypes| - 1 &&
      (forall h :: 0 <= h < g ==> r[h] == genotypes[h]) &&
      (forall h :: g <= h < |r| ==> r[h] == genotypes[h + 1].(index := h))
  {
    var lowered := genotypes[g := genotypes[g].(population := genotypes[g].population - 1)];
    if genotypes[g].immortal then lowered else AfterRemoveGenotype(lowered, g)
  }

  // ---------------------------------------------------------------------
  // methylation

  /** The number of loci that went from 0 to 1. */
  function Gains(before: seq<int>, after: seq<int>): nat
    requires |before| == |after|
  {
    if |before| == 0 then 0
    else
      var n := |before|;
      Gains(before[..n - 1], after[..n - 1]) + (if before[n - 1] == 0 && after[n - 1] == 1 then 1 else 0)
  }

  /** The number of loci that went from 1 to 0. */
  function Losses(before: seq<int>, after: seq<int>): nat
    requires |before| == |after|
  {
    if |before| == 0 then 0
    else
      var n := |before|;
      Losses(before[..n - 1], after[..n - 1]) + (if before[n - 1] == 1 && after[n - 1] == 0 then 1 else 0)
  }

  /** Every locus holds 0 or 1. */
  predicate Binary(a: seq<int>) {
    forall i :: 0 <= i < |a| ==> a[i] == 0 || a[i] == 1
  }

  /** The outcome of one methylation pass over `before` with one uniform draw
      per locus: the array keeps its length; a locus changes exactly when it
      was 0 and its draw is below `methRate` or it was 1 and its draw is below
      `demethRate`; and a change flips 0 and 1. */
  predicate Methylated(before: seq<int>, after: seq<int>, draws: seq<real>, methRate: real, demethRate: real)
    requires |draws| == |before|
  {
    |after| == |before| &&
    (forall i :: 0 <= i < |before| ==>
      (after[i] != before[i] <==>
        (before[i] == 0 && draws[i] < methRate) || (before[i] == 1 && draws[i] < demethRate))) &&
    (forall i :: 0 <= i < |before| && after[i] != before[i] ==> after[i] == 1 - before[i])
  }

  /** The array one methylation pass leaves: a 0 whose draw is below
      `methRate` becomes 1, a 1 whose draw is below `demethRate` becomes 0,
      and every other locus keeps its value. */
  function Methylate(before: seq<int>, draws: seq<real>, methRate: real, demethRate: real): (after: seq<int>)
    requires |draws| == |before|
    ensures Methylated(before, after, draws, methRate, demethRate)
  {
    seq(|before|, i requires 0 <= i < |before| =>
      if before[i] == 0 && draws[i] < methRate then 1
      else if before[i] == 1 && draws[i] < demethRate then 0
      else before[i])
  }

  /** `Methylated` pins the outcome down: the draws leave one array only,
      the one `Methylate` computes. */
  lemma MethylatedIsMethylate(before: seq<int>, after: seq<int>, draws: seq<real>, methRate: real, demethRate: real)
    requires |draws| == |before| && Methylated(before, after, draws, methRate, demethRate)
    ensures after == Methylate(before, draws, methRate, demethRate)
  {
    var m := Methylate(before, draws, methRate, demethRate);
    forall i | 0 <= i < |before| ensures after[i] == m[i] {
      assert m[i] != before[i] <==> after[i] != before[i];
    }
  }

  /** `methylation(clone, driver_genotype, ...)`: for each locus one uniform
      draw decides it; an unmethylated locus (0) is methylated when the draw
      is below `meth_rate`, a methylated one (1) is demethylated when it is
      below `demeth_rate`. The array keeps its length, a locus changes only
      by flipping between 0 and 1 and only when its draw says so, and the
      genotype's `num_meth`/`num_demeth` and the counter's `methylation`/
      `demethylation` grow by exactly the number of 0-to-1 and 1-to-0 flips.
      The clone's other fields and the genotype's other fields are kept. */
  method Methylation(clone: Clone, genotype: DriverGenotype, counter: EventCounter,
                     draws: seq<real>, methRate: real, demethRate: real)
    returns (clone': Clone, genotype': DriverGenotype, counter': EventCounter)
    requires |draws| == |clone.methArray|
    ensures clone' == clone.(methArray := clone'.methArray)
    ensures Methylated(clone.methArray, clone'.methArray, draws, methRate, demethRate)
    ensures clone'.methArray == Methylate(clone.methArray, draws, methRate, demethRate)
    ensures genotype' == genotype.(
      numMeth := genotype.numMeth + Gains(clone.methArray, clone'.methArray),
      numDemeth := genotype.numDemeth + Losses(clone.methArray, clone'.methArray))
    ensures counter' == counter.(
      methylation := counter.methylation + Gains(clone.methArray, clone'.methArray),
      demethylation := counter.demethylation + Losses(clone.methArray, clone'.methArray))
  {
    var a := clone.methArray;
    var arr := a;
    var numMeth, numDemeth := genotype.numMeth, genotype.numDemeth;
    var meth, demeth := counter.methylation, counter.demethylation;
    var i := 0;
    while i < |arr|
      invariant 0 <= i <= |arr| == |a|
      invariant arr[i..] == a[i..]
      invariant forall k :: 0 <= k < i ==>
        (arr[k] != a[k] <==> (a[k] == 0 && draws[k] < methRate) || (a[k] == 1 && draws[k] < demethRate))
      invariant forall k :: 0 <= k < i && arr[k] != a[k] ==> arr[k] == 1 - a[k]
      invariant numMeth == genotype.numMeth + Gains(a[..i], arr[..i])
      invariant numDemeth == genotype.numDemeth + Losses(a[..i], arr[..i])
      invariant meth == counter.methylation + Gains(a[..i], arr[..i])
      invariant demeth == counter.demethylation + Losses(a[..i], arr[..i])
    {
      var condition1 := if arr[i] == 0 && draws[i] < methRate then 1 else 0;
      var condition2 := if arr[i] == 1 && draws[i] < demethRate then 1 else 0;
      var prev := arr;
      arr := arr[i := arr[i] + condition1 - condition2];
      assert a[..i + 1][..i] == a[..i];
      assert arr[..i + 1][..i] == prev[..i];
      numMeth, numDemeth := numMeth + condition1, numDemeth + condition2;
      meth, demeth := meth + condition1, demeth + condition2;
      i := i + 1;
    }
    assert a[..i] == a && arr[..i] == arr;
    clone' := clone.(methArray := arr);
    genotype' := genotype.(numMeth := numMeth, numDemeth := numDemeth);
    counter' := counter.(methylation := meth, demethylation := demeth);
    MethylatedIsMethylate(a, arr, draws, methRate, demethRate);
  }

  /** A 0/1 array stays a 0/1 array under any update that only flips loci. */
  lemma FlipsKeepBinary(before: seq<int>, after: seq<int>)
    requires Binary(before) && |after| == |before|
    requires forall i :: 0 <= i < |before| && after[i] != before[i] ==> after[i] == 1 - before[i]
    ensures Binary(after)
  {
    forall i | 0 <= i < |after| ensures after[i] == 0 || after[i] == 1 {
      assert before[i] == 0 || before[i] == 1;
    }
  }

  /** The loci whose value differs between `before` and `after`. */
  function ChangedLoci(before: seq<int>, after: seq<int>): set<nat>
    requires |before| == |after|
  {
    set i: nat | i < |before| && after[i] != before[i]
  }

  /** Dropping the last locus drops it from the changed loci and nothing
      else. */
  lemma ChangedLociStep(before: seq<int>, after: seq<int>)
    requires |before| == |after| > 0
    ensures var n := |before|;
            |ChangedLoci(before, after)| ==
              |ChangedLoci(before[..n - 1], after[..n - 1])| + (if after[n - 1] != before[n - 1] then 1 else 0)
  {
    var n := |before|;
    var front := ChangedLoci(before[..n - 1], after[..n - 1]);
    assert front == set i: nat | i < n - 1 && after[i] != before[i];
    if after[n - 1] != before[n - 1] {
      assert ChangedLoci(before, after) == front + {n - 1};
    } else {
      assert ChangedLoci(before, after) == front;
    }
  }

  /** On a 0/1 array that only flips, the gains and the losses together are
      the number of loci that changed, and no locus counts as both. */
  lemma {:induction false} GainsAndLossesCountFlips(before: seq<int>, after: seq<int>)
    requires Binary(before) && |after| == |before|
    requires forall i :: 0 <= i < |before| && after[i] != before[i] ==> after[i] == 1 - before[i]
    ensures Gains(before, after) + Losses(before, after) == |ChangedLoci(before, after)|
  {
    var n := |before|;
    if n > 0 {
      GainsAndLossesCountFlips(before[..n - 1], after[..n - 1]);
      ChangedLociStep(before, after);
      assert before[n - 1] == 0 || before[n - 1] == 1;
    }
  }

  // ---------------------------------------------------------------------
  // choose_number_mutations

  /** `choose_number_mutations`: daughter i gains `newBirthDrivers[i]`
      birth-rate drivers and `newMigDrivers[i]` migration-rate drivers (the
      Poisson draws); its entry counts both kinds, is 0 exactly when it gains
      none, and the two entries add up to every new driver. */
  function ChooseNumberMutations(newBirthDrivers: seq<nat>, newMigDrivers: seq<nat>): (res: seq<nat>)
    requires |newBirthDrivers| == 2 && |newMigDrivers| == 2
    ensures |res| == 2
    ensures forall i :: 0 <= i < 2 ==> res[i] >= newBirthDrivers[i] && res[i] >= newMigDrivers[i]
    ensures forall i :: 0 <= i < 2 ==> (res[i] == 0 <==> newBirthDrivers[i] == 0 && newMigDrivers[i] == 0)
    ensures res[0] + res[1] == newBirthDrivers[0] + newBirthDrivers[1] + newMigDrivers[0] + newMigDrivers[1]
  {
    [newBirthDrivers[0] + newMigDrivers[0], newBirthDrivers[1] + newMigDrivers[1]]
  }

  // ---------------------------------------------------------------------
  // Clone and deme rates

  /** `get_clone_birth`: the birth rate of the clone's driver genotype. A
      `driver_index` outside `driver_genotypes` reads as 0. */
  function CloneBirth(genotypes: seq<DriverGenotype>, clone: Clone): real {
    if clone.driverIndex < |genotypes| then genotypes[clone.driverIndex].birthRate else 0.0
  }

  /** `get_clone_migration`: the migration rate of the clone's driver
      genotype, 0 for an index outside `driver_genotypes`. */
  function CloneMigration(genotypes: seq<DriverGenotype>, clone: Clone): real {
    if clone.driverIndex < |genotypes| then genotypes[clone.driverIndex].migrationRate else 0.0
  }

  /** The birth rate of each clone of a deme's list, in list order (0 for an
      entry naming no clone, which a consistent state does not have). */
  function ListBirthRates(clones: seq<Clone>, genotypes: seq<DriverGenotype>, list: seq<nat>): (r: seq<real>)
    ensures |r| == |list|
  {
    seq(|list|, k requires 0 <= k < |list| => if list[k] < |clones| then CloneBirth(genotypes, clones[list[k]]) else 0.0)
  }

  /** The migration rate of each clone of a deme's list, in list order. */
  function ListMigrationRates(clones: seq<Clone>, genotypes: seq<DriverGenotype>, list: seq<nat>): (r: seq<real>)
    ensures |r| == |list|
  {
    seq(|list|, k requires 0 <= k < |list| => if list[k] < |clones| then CloneMigration(genotypes, clones[list[k]]) else 0.0)
  }

  /** Every driver genotype has non-negative rates. */
  predicate RatesNonNegative(genotypes: seq<DriverGenotype>) {
    forall g :: 0 <= g < |genotypes| ==> genotypes[g].birthRate >= 0.0 && genotypes[g].migrationRate >= 0.0
  }

  /** With non-negative genotype rates a deme's birth and migration sums are
      non-negative. */
  lemma DemeRatesNonNegative(clones: seq<Clone>, genotypes: seq<DriverGenotype>, list: seq<nat>)
    requires RatesNonNegative(genotypes)
    ensures Sum(ListBirthRates(clones, genotypes, list)) >= 0.0
    ensures Sum(ListMigrationRates(clones, genotypes, list)) >= 0.0
  {
    SumNonNegative(ListBirthRates(clones, genotypes, list));
    SumNonNegative(ListMigrationRates(clones, genotypes, list));
  }

  /** A clone appended to a deme's list adds exactly its own rates to the
      deme's sums. */
  lemma ListRatesAppend(clones: seq<Clone>, genotypes: seq<DriverGenotype>, list: seq<nat>, x: nat)
    requires x < |clones|
    ensures Sum(ListBirthRates(clones, genotypes, list + [x])) ==
            Sum(ListBirthRates(clones, genotypes, list)) + CloneBirth(genotypes, clones[x])
    ensures Sum(ListMigrationRates(clones, genotypes, list + [x])) ==
            Sum(ListMigrationRates(clones, genotypes, list)) + CloneMigration(genotypes, clones[x])
  {
    var l := list + [x];
    assert ListBirthRates(clones, genotypes, l)[..|list|] == ListBirthRates(clones, genotypes, list);
    assert ListMigrationRates(clones, genotypes, l)[..|list|] == ListMigrationRates(clones, genotypes, list);
  }

  // ---------------------------------------------------------------------
  // num_cells

  /** `num_cells`: the populations of all demes added up. */
  function TotalPopulation(demes: seq<Deme>): int {
    if |demes| == 0 then 0 else TotalPopulation(demes[..|demes| - 1]) + demes[|demes| - 1].population
  }

  /** Replacing one deme changes the total by the change in that deme's
      population and by nothing else. */
  lemma {:induction false} TotalPopulationUpdate(demes: seq<Deme>, j: nat, dm: Deme)
    requires j < |demes|
    ensures TotalPopulation(demes[j := dm]) == TotalPopulation(demes) - demes[j].population + dm.population
    decreases |demes|
  {
    var n := |demes|;
    var u := demes[j := dm];
    if j < n - 1 {
      assert u[..n - 1] == demes[..n - 1][j := dm];
      TotalPopulationUpdate(demes[..n - 1], j, dm);
    } else {
      assert u[..n - 1] == demes[..n - 1];
    }
  }

  /** A deme appended to the list adds its population to the total. */
  lemma TotalPopulationAppend(demes: seq<Deme>, dm: Deme)
    ensures TotalPopulation(demes + [dm]) == TotalPopulation(demes) + dm.population
  {
    assert (demes + [dm])[..|demes|] == demes;
  }

  // ---------------------------------------------------------------------
  // choose_deme, choose_clone, choose_event_type

  /** The `sum_rates` of every deme, in deme order. */
  function DemeRates(demes: seq<Deme>): (r: seq<real>)
    ensures |r| == |demes| && forall j :: 0 <= j < |demes| ==> r[j] == demes[j].sumRates
  {
    seq(|demes|, j requires 0 <= j < |demes| => demes[j].sumRates)
  }

  /** `choose_deme`: deme 0 when there is only one; otherwise the weighted
      choice over the demes' `sum_rates` with the uniform draw u. With
      non-negative rates and u in [0, 1) it names a deme, and with u above 0
      never one whose rates add up to 0 while another's do not. */
  function ChooseDeme(demes: seq<Deme>, u: real): (k: nat)
    requires |demes| >= 1
    ensures |demes| == 1 ==> k == 0
    ensures NonNegative(DemeRates(demes)) && 0.0 <= u < 1.0 ==> k < |demes|
    ensures NonNegative(DemeRates(demes)) && 0.0 < u < 1.0 && Sum(DemeRates(demes)) > 0.0 ==>
      k < |demes| && demes[k].sumRates > 0.0
  {
    ChooseIndex(DemeRates(demes), u)
  }

  /** With three or more demes `choose_deme` takes the first deme whose
      running total of `sum_rates` reaches the scaled draw
      r = u * `cum_rates.back()`. */
  lemma ChooseDemeFirstCovering(demes: seq<Deme>, u: real)
    requires |demes| >= 3 && NonNegative(DemeRates(demes)) && 0.0 <= u < 1.0
    ensures var cum := CumulativeSums(DemeRates(demes));
            var r := ScaledDraw(u, cum[|demes| - 1]);
            var k := ChooseDeme(demes, u);
            k < |demes| && r <= cum[k] && forall i :: 0 <= i < k ==> cum[i] < r
  {
    var rates := DemeRates(demes);
    SumNonNegative(rates);
    ChooseScaledIsFirstCovering(rates, ScaledDraw(u, CumulativeSums(rates)[|demes| - 1]));
  }

  /** The weight `choose_clone` gives every clone of the deme: the deme's
      death rate plus the birth rate of the genotype of the list's first
      clone, which the source reads once before its loop. */
  function CloneWeight(deme: Deme, clones: seq<Clone>, genotypes: seq<DriverGenotype>): real
    requires |deme.clonesList| >= 1 && deme.clonesList[0] < |clones|
  {
    deme.deathRate + CloneBirth(genotypes, clones[deme.clonesList[0]])
  }

  /** `choose_clone`: position 0 when the deme has one clone; otherwise the
      weighted choice over the running totals of `CloneWeight`. The source
      writes those totals into a vector it never sized; the model builds the
      list it evidently meant. With a non-negative weight and u in [0, 1) the
      result is a position in the deme's list. */
  function ChooseClone(deme: Deme, clones: seq<Clone>, genotypes: seq<DriverGenotype>, u: real): (k: nat)
    requires |deme.clonesList| >= 1 && InRange(deme.clonesList, |clones|)
    ensures |deme.clonesList| == 1 ==> k == 0
    ensures CloneWeight(deme, clones, genotypes) >= 0.0 && 0.0 <= u < 1.0 ==> k < |deme.clonesList|
  {
    var w := CloneWeight(deme, clones, genotypes);
    ChooseIndex(seq(|deme.clonesList|, _ => w), u)
  }

  /** `choose_event_type` as written (with the unsized vector replaced by
      the two-entry list it meant): the list is [birth, death], not running
      totals, so the draw is scaled by the death rate alone. */
  function EventTypeAsWritten(birth: real, death: real, u: real): EventKind {
    PickEvent([birth, death], u)
  }

  /** As written, a clone whose death rate does not exceed its positive birth
      rate always gets "birth": the scaled draw never reaches the birth rate. */
  lemma AsWrittenNeverDies(birth: real, death: real, u: real)
    requires 0.0 < birth && 0.0 <= death <= birth && 0.0 <= u < 1.0
    ensures EventTypeAsWritten(birth, death, u) == Birth
  {
  }

  /** A concrete draw where the two readings part: with birth and death rate
      both 1 and u = 0.75 the source picks "birth", where the running totals
      [1, 2] give "death". */
  lemma EventTypeDiscrepancy()
    ensures EventTypeAsWritten(1.0, 1.0, 0.75) == Birth
    ensures ChooseEventType(1.0, 1.0, 0.75) == Death
  {
    assert ScaledDraw(0.75, 1.0) == 0.75;
    assert ScaledDraw(0.75, 2.0) == 1.5;
  }

  /** `choose_event_type` with running totals [birth, birth + death], as the
      newer design builds them: for non-negative rates with a positive total
      and u in [0, 1) it never picks "fission", and it picks "birth" exactly
      when the scaled draw falls below the birth rate. */
  function ChooseEventType(birth: real, death: real, u: real): (e: EventKind)
    ensures 0.0 <= birth && 0.0 <= death && 0.0 < birth + death && 0.0 <= u < 1.0 ==>
      e != Fission && (e == Birth <==> ScaledDraw(u, birth + death) < birth)
  {
    PickEvent([birth, birth + death], u)
  }

  // ---------------------------------------------------------------------
  // move_cells

  /** Erasing `moves[0]`, then `moves[1]`, ... from a list of length n stays
      in range: the i-th position is below n - i, the length by then. */
  predicate Fits(moves: seq<nat>, n: nat) {
    forall i :: 0 <= i < |moves| ==> moves[i] + i < n
  }

  /** The positions `move_cells` and `pseudo_fission` act on: the first
      `cellsToMove` entries of the shuffled 0..population-1, sorted into
      descending order. When `perm` is a shuffle of 0..population-1 they are
      `cellsToMove` distinct positions below the population in strictly
      descending order, so erasing them one after the other never runs off
      the end of a list of at least that length. */
  function ChosenPositions(perm: seq<nat>, cellsToMove: nat): (moves: seq<nat>)
    requires cellsToMove <= |perm|
    ensures |moves| == cellsToMove
    ensures IsPermutation(perm, |perm|) ==> StrictlyDescending(moves) && Fits(moves, |perm|)
  {
    assert IsPermutation(perm, |perm|) ==>
             StrictlyDescending(SortDescending(perm[..cellsToMove])) &&
             Fits(SortDescending(perm[..cellsToMove]), |perm|) by {
      if IsPermutation(perm, |perm|) {
        SortedPrefixFits(perm, |perm|, cellsToMove);
      }
    }
    SortDescending(perm[..cellsToMove])
  }

  /** The facts behind `ChosenPositions`: sorting a prefix of a permutation
      of 0..population-1 gives distinct positions that fit a shrinking list. */
  lemma SortedPrefixFits(perm: seq<nat>, population: nat, cellsToMove: nat)
    requires IsPermutation(perm, population) && cellsToMove <= population
    ensures var moves := SortDescending(perm[..cellsToMove]);
            StrictlyDescending(moves) && Fits(moves, population)
  {
    var chosen := perm[..cellsToMove];
    var moves := SortDescending(chosen);
    PermutationPrefix(perm, population, cellsToMove);
    SortDescendingOrders(chosen);
    forall i | 0 <= i < |moves| ensures moves[i] < population {
      assert moves[i] in multiset(moves);
      assert moves[i] in multiset(chosen);
    }
    DescendingFitsShrinkingList(moves, population);
  }

  /** One pass of the loop in `move_cells`: the clone at position `index` of
      the parent's list is appended to the daughter's list, records the
      daughter's identity and its position there, and its entry is erased
      from the parent's list. */
  function MoveOne(clones: seq<Clone>, parentList: seq<nat>, daughterList: seq<nat>, daughterId: nat, index: nat)
    : (r: (seq<Clone>, seq<nat>, seq<nat>))
    requires InRange(parentList, |clones|) && index < |parentList|
  {
    var x := parentList[index];
    (clones[x := clones[x].(deme := daughterId, indexInDeme := |daughterList|)],
     EraseAt(parentList, index),
     daughterList + [x])
  }

  /** The loop of `move_cells` over the chosen positions, in order. */
  function MoveAll(clones: seq<Clone>, parentList: seq<nat>, daughterList: seq<nat>, daughterId: nat, moves: seq<nat>)
    : (r: (seq<Clone>, seq<nat>, seq<nat>))
    requires InRange(parentList, |clones|) && Fits(moves, |parentList|)
    ensures |r.0| == |clones| && InRange(r.1, |clones|)
    ensures |r.1| == |parentList| - |moves| && |r.2| == |daughterList| + |moves|
  {
    if |moves| == 0 then (clones, parentList, daughterList)
    else
      var n := |moves|;
      var prev := MoveAll(clones, parentList, daughterList, daughterId, moves[..n - 1]);
      var m := moves[n - 1];
      var x := prev.1[m];
      (prev.0[x := prev.0[x].(deme := daughterId, indexInDeme := |prev.2|)],
       EraseAt(prev.1, m),
       prev.2 + [x])
  }

  /** What holds after any number of passes of the loop in `move_cells`,
      started from `orig` with lists `parent0` and `daughter0`: every clone in
      the daughter's list records the daughter and its position there; the
      parent's remaining entries are distinct and their clones untouched;
      clones outside the parent's original list are untouched; no clone has
      changed anything but `deme` and `index_in_deme`; and the entries of the
      two lists are conserved, the daughter's old entries staying in front. */
  predicate MoveInvariant(orig: seq<Clone>, parent0: seq<nat>, daughter0: seq<nat>,
                          clones: seq<Clone>, parentList: seq<nat>, daughterList: seq<nat>, daughterId: nat)
  {
    |clones| == |orig| && InRange(parentList, |orig|) && Distinct(parentList) &&
    ListHolds(clones, daughterList, daughterId) &&
    (forall k :: 0 <= k < |parentList| ==> clones[parentList[k]] == orig[parentList[k]]) &&
    (forall i :: 0 <= i < |orig| && i !in parent0 ==> clones[i] == orig[i]) &&
    (forall i :: 0 <= i < |orig| ==>
      clones[i] == orig[i].(deme := clones[i].deme, indexInDeme := clones[i].indexInDeme)) &&
    multiset(parentList) <= multiset(parent0) &&
    multiset(parentList) + multiset(daughterList) == multiset(parent0) + multiset(daughter0) &&
    |daughter0| <= |daughterList| && daughterList[..|daughter0|] == daughter0
  }

  /** One pass of the loop keeps `MoveInvariant`, provided the parent's
      clones all sit in another deme than the daughter. */
  lemma MoveOneKeeps(orig: seq<Clone>, parent0: seq<nat>, daughter0: seq<nat>,
                     clones: seq<Clone>, parentList: seq<nat>, daughterList: seq<nat>,
                     daughterId: nat, d: nat, m: nat)
    requires MoveInvariant(orig, parent0, daughter0, clones, parentList, daughterList, daughterId)
    requires forall k :: 0 <= k < |parent0| ==> parent0[k] < |orig| && orig[parent0[k]].deme == d
    requires d != daughterId && m < |parentList|
    ensures var r := MoveOne(clones, parentList, daughterList, daughterId, m);
            MoveInvariant(orig, parent0, daughter0, r.0, r.1, r.2, daughterId)
  {
    var r := MoveOne(clones, parentList, daughterList, daughterId, m);
    var x := parentList[m];
    EraseAtMultiset(parentList, m);
    assert x in multiset(parentList);
    assert x in multiset(parent0);
    assert clones[x] == orig[x];
    forall k | 0 <= k < |daughterList| ensures daughterList[k] != x {
      assert ListedAt(clones, daughterList, daughterId, k);
    }
    forall k | 0 <= k < |r.2| ensures ListedAt(r.0, r.2, daughterId, k) {
      if k < |daughterList| {
        assert ListedAt(clones, daughterList, daughterId, k);
      }
    }
    forall k | 0 <= k < |r.1| ensures r.1[k] != x && r.0[r.1[k]] == orig[r.1[k]] {
      var k1 := if k < m then k else k + 1;
      assert r.1[k] == parentList[k1];
    }
    assert Distinct(r.1) by {
      forall a, b | 0 <= a < b < |r.1| ensures r.1[a] != r.1[b] {
        var a0 := if a < m then a else a + 1;
        var b0 := if b < m then b else b + 1;
        assert r.1[a] == parentList[a0] && r.1[b] == parentList[b0];
      }
    }
    assert r.2[..|daughter0|] == daughterList[..|daughter0|];
  }

  /** The whole loop of `move_cells` keeps `MoveInvariant` from its start. */
  lemma {:induction false} MoveAllKeeps(clones: seq<Clone>, parentList: seq<nat>, daughterList: seq<nat>,
                                        daughterId: nat, d: nat, moves: seq<nat>)
    requires InRange(parentList, |clones|) && Distinct(parentList) && Fits(moves, |parentList|)
    requires forall k :: 0 <= k < |parentList| ==> clones[parentList[k]].deme == d
    requires d != daughterId && ListHolds(clones, daughterList, daughterId)
    ensures var r := MoveAll(clones, parentList, daughterList, daughterId, moves);
            MoveInvariant(clones, parentList, daughterList, r.0, r.1, r.2, daughterId)
  {
    var n := |moves|;
    if n == 0 {
      assert daughterList[..|daughterList|] == daughterList;
    } else {
      var front := moves[..n - 1];
      assert Fits(front, |parentList|);
      MoveAllKeeps(clones, parentList, daughterList, daughterId, d, front);
      var prev := MoveAll(clones, parentList, daughterList, daughterId, front);
      MoveOneKeeps(clones, parentList, daughterList, prev.0, prev.1, prev.2, daughterId, d, moves[n - 1]);
      assert MoveAll(clones, parentList, daughterList, daughterId, moves) ==
             MoveOne(prev.0, prev.1, prev.2, daughterId, moves[n - 1]);
    }
  }

  /** The state `move_cells(demes[d], daughter, ...)` leaves when it moves
      the clones at `moves`: the loop's result, with the deme's population
      lowered and the daughter's raised by the number moved. The source never
      tells the parent's remaining clones their new positions; the model does,
      as `remove_clone` does for its deme (see `MoveCellsAsWrittenBreaksListing`). */
  function AfterMoveCells(clones: seq<Clone>, demes: seq<Deme>, d: nat, daughter: Deme, moves: seq<nat>)
    : (r: (seq<Clone>, seq<Deme>, Deme))
    requires d < |demes| && InRange(demes[d].clonesList, |clones|) && Fits(moves, |demes[d].clonesList|)
  {
    var parent := demes[d];
    var m := MoveAll(clones, parent.clonesList, daughter.clonesList, daughter.identity, moves);
    (SetPositions(m.0, m.1),
     demes[d := parent.(clonesList := m.1, population := parent.population - |moves|)],
     daughter.(clonesList := m.2, population := daughter.population + |moves|))
  }

  /** The clones after `move_cells`, from the results of its loop. */
  lemma AfterMoveCellsClones(clones: seq<Clone>, demes: seq<Deme>, d: nat, daughter: Deme, moves: seq<nat>,
                             moved: seq<Clone>, parentList: seq<nat>, daughterList: seq<nat>)
    requires d < |demes| && InRange(demes[d].clonesList, |clones|) && Fits(moves, |demes[d].clonesList|)
    requires (moved, parentList, daughterList) ==
             MoveAll(clones, demes[d].clonesList, daughter.clonesList, daughter.identity, moves)
    ensures InRange(parentList, |moved|)
    ensures AfterMoveCells(clones, demes, d, daughter, moves).0 == SetPositions(moved, parentList)
  {
  }

  /** The demes and the daughter after `move_cells`, from the results of its
      loop. */
  lemma AfterMoveCellsDemes(clones: seq<Clone>, demes: seq<Deme>, d: nat, daughter: Deme, moves: seq<nat>,
                            moved: seq<Clone>, parentList: seq<nat>, daughterList: seq<nat>)
    requires d < |demes| && InRange(demes[d].clonesList, |clones|) && Fits(moves, |demes[d].clonesList|)
    requires (moved, parentList, daughterList) ==
             MoveAll(clones, demes[d].clonesList, daughter.clonesList, daughter.identity, moves)
    ensures AfterMoveCells(clones, demes, d, daughter, moves).1 ==
            demes[d := demes[d].(clonesList := parentList, population := demes[d].population - |moves|)]
    ensures AfterMoveCells(clones, demes, d, daughter, moves).2 ==
            daughter.(clonesList := daughterList, population := daughter.population + |moves|)
  {
  }

  /** The facts the three parts of `MoveCellsKeepsListing` share. */
  lemma MoveCellsSetup(clones: seq<Clone>, demes: seq<Deme>, d: nat, daughter: Deme, moves: seq<nat>)
    requires ClonesIndexed(clones) && Listed(clones, demes) && d < |demes|
    requires daughter.identity == |demes| && ListHolds(clones, daughter.clonesList, daughter.identity)
    requires InRange(demes[d].clonesList, |clones|) && Fits(moves, |demes[d].clonesList|)
    ensures var m := MoveAll(clones, demes[d].clonesList, daughter.clonesList, daughter.identity, moves);
            MoveInvariant(clones, demes[d].clonesList, daughter.clonesList, m.0, m.1, m.2, daughter.identity) &&
            (forall k :: 0 <= k < |m.1| ==> m.0[m.1[k]].deme == d) &&
            (forall k :: 0 <= k < |demes[d].clonesList| ==> clones[demes[d].clonesList[k]].deme == d)
  {
    var pl := demes[d].clonesList;
    assert ListHolds(clones, pl, d);
    ListHoldsDistinct(clones, pl, d);
    forall k | 0 <= k < |pl| ensures clones[pl[k]].deme == d {
      assert ListedAt(clones, pl, d, k);
    }
    MoveAllKeeps(clones, pl, daughter.clonesList, daughter.identity, d, moves);
    var m := MoveAll(clones, pl, daughter.clonesList, daughter.identity, moves);
    forall k | 0 <= k < |m.1| ensures m.0[m.1[k]].deme == d {
      assert m.1[k] in multiset(m.1);
      assert m.1[k] in multiset(pl);
    }
  }

  /** The parent after `move_cells`: its list agrees with its clones. */
  lemma MoveCellsParent(clones: seq<Clone>, demes: seq<Deme>, d: nat, daughter: Deme, moves: seq<nat>)
    requires ClonesIndexed(clones) && Listed(clones, demes) && d < |demes|
    requires daughter.identity == |demes| && ListHolds(clones, daughter.clonesList, daughter.identity)
    requires InRange(demes[d].clonesList, |clones|) && Fits(moves, |demes[d].clonesList|)
    ensures var r := AfterMoveCells(clones, demes, d, daughter, moves);
            ListHolds(r.0, r.1[d].clonesList, d)
  {
    MoveCellsSetup(clones, demes, d, daughter, moves);
    var m := MoveAll(clones, demes[d].clonesList, daughter.clonesList, daughter.identity, moves);
    SetPositionsAt(m.0, m.1);
  }

  /** The daughter after `move_cells`: every clone in its list records the
      daughter and its position there. */
  lemma MoveCellsDaughter(clones: seq<Clone>, demes: seq<Deme>, d: nat, daughter: Deme, moves: seq<nat>)
    requires ClonesIndexed(clones) && Listed(clones, demes) && d < |demes|
    requires daughter.identity == |demes| && ListHolds(clones, daughter.clonesList, daughter.identity)
    requires InRange(demes[d].clonesList, |clones|) && Fits(moves, |demes[d].clonesList|)
    ensures var r := AfterMoveCells(clones, demes, d, daughter, moves);
            ListHolds(r.0, r.2.clonesList, daughter.identity)
  {
    MoveCellsSetup(clones, demes, d, daughter, moves);
    var m := MoveAll(clones, demes[d].clonesList, daughter.clonesList, daughter.identity, moves);
    SetPositionsAt(m.0, m.1);
    var s := SetPositions(m.0, m.1);
    forall k | 0 <= k < |m.2| ensures ListedAt(s, m.2, daughter.identity, k) {
      assert ListedAt(m.0, m.2, daughter.identity, k);
      assert m.2[k] !in m.1;
    }
  }

  /** Every other deme after `move_cells`: its list is unchanged and still
      agrees with its clones. */
  lemma MoveCellsOther(clones: seq<Clone>, demes: seq<Deme>, d: nat, daughter: Deme, moves: seq<nat>, j: nat)
    requires ClonesIndexed(clones) && Listed(clones, demes) && d < |demes|
    requires daughter.identity == |demes| && ListHolds(clones, daughter.clonesList, daughter.identity)
    requires InRange(demes[d].clonesList, |clones|) && Fits(moves, |demes[d].clonesList|)
    requires j < |demes| && j != d
    ensures var r := AfterMoveCells(clones, demes, d, daughter, moves);
            ListHolds(r.0, r.1[j].clonesList, j)
  {
    MoveCellsSetup(clones, demes, d, daughter, moves);
    var pl := demes[d].clonesList;
    var m := MoveAll(clones, pl, daughter.clonesList, daughter.identity, moves);
    SetPositionsAt(m.0, m.1);
    var s := SetPositions(m.0, m.1);
    var lj := demes[j].clonesList;
    assert ListHolds(clones, lj, j);
    forall k | 0 <= k < |lj| ensures ListedAt(s, lj, j, k) {
      assert ListedAt(clones, lj, j, k);
      var y := lj[k];
      assert y !in pl;
      assert m.0[y] == clones[y];
      assert y !in multiset(pl);
      assert y !in m.1 by {
        assert multiset(m.1) <= multiset(pl);
      }
    }
  }

  /** `move_cells` keeps every back-reference right once the daughter is
      appended to the demes: each list agrees with its clones and the clones
      stay numbered by position. The parent loses exactly the moved entries
      and the daughter gains them, so their entries, their list lengths and
      their populations are conserved in total. */
  lemma MoveCellsKeepsListing(clones: seq<Clone>, demes: seq<Deme>, d: nat, daughter: Deme, moves: seq<nat>)
    requires ClonesIndexed(clones) && Listed(clones, demes) && d < |demes|
    requires daughter.identity == |demes| && ListHolds(clones, daughter.clonesList, daughter.identity)
    requires InRange(demes[d].clonesList, |clones|) && Fits(moves, |demes[d].clonesList|)
    ensures var r := AfterMoveCells(clones, demes, d, daughter, moves);
            ClonesIndexed(r.0) && Listed(r.0, r.1 + [r.2]) && |r.0| == |clones| &&
            |r.1[d].clonesList| == |demes[d].clonesList| - |moves| &&
            |r.2.clonesList| == |daughter.clonesList| + |moves| &&
            multiset(r.1[d].clonesList) + multiset(r.2.clonesList) ==
              multiset(demes[d].clonesList) + multiset(daughter.clonesList) &&
            r.1[d].population + r.2.population == demes[d].population + daughter.population
  {
    var r := AfterMoveCells(clones, demes, d, daughter, moves);
    MoveCellsSetup(clones, demes, d, daughter, moves);
    var m := MoveAll(clones, demes[d].clonesList, daughter.clonesList, daughter.identity, moves);
    SetPositionsAt(m.0, m.1);
    var all := r.1 + [r.2];
    forall j | 0 <= j < |all| ensures ListHolds(r.0, all[j].clonesList, j) {
      if j == |demes| {
        MoveCellsDaughter(clones, demes, d, daughter, moves);
      } else if j == d {
        MoveCellsParent(clones, demes, d, daughter, moves);
      } else {
        MoveCellsOther(clones, demes, d, daughter, moves, j);
      }
    }
    forall i | 0 <= i < |r.0| ensures r.0[i].index == i {
      assert clones[i].index == i;
    }
  }

  /** After the loop of `move_cells` and the parent's positions rewrite, a
      clone of the parent's original list is either among the parent's
      remaining entries, recording the parent and its new place there, or
      among the daughter's, recording the daughter and its place there. */
  lemma MovedClonePlaced(orig: seq<Clone>, parent0: seq<nat>, daughter0: seq<nat>,
                         moved: seq<Clone>, parentList: seq<nat>, daughterList: seq<nat>,
                         daughterId: nat, d: nat, i: nat)
    requires MoveInvariant(orig, parent0, daughter0, moved, parentList, daughterList, daughterId)
    requires forall k :: 0 <= k < |parentList| ==> moved[parentList[k]].deme == d
    requires i in parent0 && i < |orig|
    ensures var s := SetPositions(moved, parentList);
            |s| == |orig| &&
            ((s[i].deme == d && s[i].indexInDeme < |parentList| && parentList[s[i].indexInDeme] == i) ||
             (s[i].deme == daughterId && s[i].indexInDeme < |daughterList| && daughterList[s[i].indexInDeme] == i))
  {
    SetPositionsAt(moved, parentList);
    assert i in multiset(parent0) + multiset(daughter0);
    assert i in multiset(parentList) + multiset(daughterList);
    if i in parentList {
      var k1 :| 0 <= k1 < |parentList| && parentList[k1] == i;
    } else {
      assert i !in multiset(parentList);
      assert i in multiset(daughterList);
      var k2 :| 0 <= k2 < |daughterList| && daughterList[k2] == i;
      assert ListedAt(moved, daughterList, daughterId, k2);
    }
  }

  /** A clone outside the parent's original list is left exactly as it was
      by `move_cells`. */
  lemma UnmovedClone(orig: seq<Clone>, parent0: seq<nat>, daughter0: seq<nat>,
                     moved: seq<Clone>, parentList: seq<nat>, daughterList: seq<nat>, daughterId: nat, i: nat)
    requires MoveInvariant(orig, parent0, daughter0, moved, parentList, daughterList, daughterId)
    requires i !in parent0 && i < |orig|
    ensures SetPositions(moved, parentList)[i] == orig[i]
  {
    SetPositionsAt(moved, parentList);
    assert i !in multiset(parent0);
    assert i !in parentList by {
      assert multiset(parentList) <= multiset(parent0);
    }
  }

  /** Clone i after `move_cells` sits where it records once the daughter is
      appended to the demes: a clone of the parent where the previous lemma
      puts it, any other clone unchanged in its unchanged list. */
  lemma MoveCellsPlacedAt(clones: seq<Clone>, demes: seq<Deme>, d: nat, daughter: Deme, moves: seq<nat>, i: nat)
    requires ClonesIndexed(clones) && Listed(clones, demes) && Placed(clones, demes) && d < |demes|
    requires daughter.identity == |demes| && ListHolds(clones, daughter.clonesList, daughter.identity)
    requires InRange(demes[d].clonesList, |clones|) && Fits(moves, |demes[d].clonesList|)
    requires i < |clones|
    ensures var r := AfterMoveCells(clones, demes, d, daughter, moves);
            i < |r.0| && PlacedAt(r.0, r.1 + [r.2], i)
  {
    MoveCellsSetup(clones, demes, d, daughter, moves);
    var pl := demes[d].clonesList;
    var m := MoveAll(clones, pl, daughter.clonesList, daughter.identity, moves);
    var r := AfterMoveCells(clones, demes, d, daughter, moves);
    assert r.0 == SetPositions(m.0, m.1);
    var all := r.1 + [r.2];
    assert all[d].clonesList == m.1 && all[|demes|].clonesList == m.2;
    assert PlacedAt(clones, demes, i);
    var j := clones[i].deme;
    if j == d {
      assert pl[clones[i].indexInDeme] == i;
      MovedClonePlaced(clones, pl, daughter.clonesList, m.0, m.1, m.2, daughter.identity, d, i);
    } else {
      forall k | 0 <= k < |pl| ensures pl[k] != i {
        assert ListedAt(clones, pl, d, k);
      }
      UnmovedClone(clones, pl, daughter.clonesList, m.0, m.1, m.2, daughter.identity, i);
      assert all[j] == demes[j];
    }
  }

  /** `move_cells` keeps every clone where it records, once the daughter is
      appended to the demes. */
  lemma MoveCellsPlaced(clones: seq<Clone>, demes: seq<Deme>, d: nat, daughter: Deme, moves: seq<nat>)
    requires ClonesIndexed(clones) && Listed(clones, demes) && d < |demes|
    requires daughter.identity == |demes| && ListHolds(clones, daughter.clonesList, daughter.identity)
    requires InRange(demes[d].clonesList, |clones|) && Fits(moves, |demes[d].clonesList|)
    ensures var r := AfterMoveCells(clones, demes, d, daughter, moves);
            Placed(clones, demes) ==> Placed(r.0, r.1 + [r.2])
  {
    var r := AfterMoveCells(clones, demes, d, daughter, moves);
    if Placed(clones, demes) {
      forall i | 0 <= i < |r.0| ensures PlacedAt(r.0, r.1 + [r.2], i) {
        MoveCellsPlacedAt(clones, demes, d, daughter, moves, i);
      }
    }
  }

  /** `move_cells` as written: the loop alone, without telling the parent's
      remaining clones their new positions. */
  function MoveCellsAsWritten(clones: seq<Clone>, parentList: seq<nat>, daughter: Deme, moves: seq<nat>)
    : (r: (seq<Clone>, seq<nat>, seq<nat>))
    requires InRange(parentList, |clones|) && Fits(moves, |parentList|)
  {
    MoveAll(clones, parentList, daughter.clonesList, daughter.identity, moves)
  }

  /** A deme 0 holding clones 0 and 1 moves the clone at position 0 to a new
      deme 1. As written, clone 1 is then first in deme 0's list but still
      records position 1, so the next `remove_clone` on it erases past the
      end of the list. */
  lemma MoveCellsAsWrittenBreaksListing()
    ensures var clones := [Clone(0, 1, 0, 0, 0, 0, []), Clone(0, 2, 0, 1, 1, 0, [])];
            var parent := Deme(2, Left, 0, 2, 0, 0.0, 0.0, 0.0, 0.0, [0, 1]);
            var daughter := Deme(2, Right, 1, 0, 1, 0.0, 0.0, 0.0, 0.0, []);
            var r := MoveCellsAsWritten(clones, [0, 1], daughter, [0]);
            ClonesIndexed(clones) && Listed(clones, [parent]) &&
            r.1 == [1] && r.0[1].indexInDeme == 1 && !ListHolds(r.0, r.1, 0)
  {
    var clones := [Clone(0, 1, 0, 0, 0, 0, []), Clone(0, 2, 0, 1, 1, 0, [])];
    var parent := Deme(2, Left, 0, 2, 0, 0.0, 0.0, 0.0, 0.0, [0, 1]);
    assert ListHolds(clones, [0, 1], 0) by {
      assert ListedAt(clones, [0, 1], 0, 0) && ListedAt(clones, [0, 1], 0, 1);
    }
    var daughter := Deme(2, Right, 1, 0, 1, 0.0, 0.0, 0.0, 0.0, []);
    var r := MoveCellsAsWritten(clones, [0, 1], daughter, [0]);
    assert [0] [..0] == [];
    assert r.1 == [1];
    assert !ListedAt(r.0, r.1, 0, 0);
  }
}
