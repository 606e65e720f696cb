/** Weighted choice by cumulative sums, used to pick a deme, a clone and an
    event type: build the running totals of non-negative rates, scale a
    uniform draw u in [0, 1) by the last total, and take the first position
    whose running total is not below the scaled draw. */
module Selection {

  /** Sum of a list of rates, added from the front as the source's loops do. */
  function Sum(rates: seq<real>): real {
    if |rates| == 0 then 0.0 else Sum(rates[..|rates| - 1]) + rates[|rates| - 1]
  }

  predicate NonNegative(rates: seq<real>) {
    forall i :: 0 <= i < |rates| ==> rates[i] >= 0.0
  }

  /** The `cumRates` vector: entry 0 is rate 0 and entry i is rate i plus
      entry i - 1, so the last entry is the total of all rates. */
  function CumulativeSums(rates: seq<real>): (cum: seq<real>)
    ensures |cum| == |rates|
    ensures |rates| > 0 ==> cum[|rates| - 1] == Sum(rates)
  {
    if |rates| == 0 then []
    else
      var n := |rates|;
      var prev := CumulativeSums(rates[..n - 1]);
      assert n == 1 ==> rates[..n - 1] == [];
      prev + [if n == 1 then rates[0] else rates[n - 1] + prev[n - 2]]
  }

  /** Entry i of the running totals is the sum of rates 0..i. */
  lemma {:induction false} CumulativeSumsAt(rates: seq<real>, i: nat)
    requires i < |rates|
    ensures CumulativeSums(rates)[i] == Sum(rates[..i + 1])
    decreases |rates|
  {
    var n := |rates|;
    if i == n - 1 {
      assert rates[..i + 1] == rates;
    } else {
      CumulativeSumsAt(rates[..n - 1], i);
      assert rates[..n - 1][..i + 1] == rates[..i + 1];
    }
  }

  /** The sum of non-negative rates is non-negative. */
  lemma {:induction false} SumNonNegative(rates: seq<real>)
    requires NonNegative(rates)
    ensures Sum(rates) >= 0.0
    decreases |rates|
  {
    if |rates| > 0 {
      SumNonNegative(rates[..|rates| - 1]);
    }
  }

  /** A longer prefix of non-negative rates never sums to less. */
  lemma {:induction false} PrefixSumMonotone(rates: seq<real>, i: nat, j: nat)
    requires NonNegative(rates)
    requires i <= j <= |rates|
    ensures Sum(rates[..i]) <= Sum(rates[..j])
    decreases j - i
  {
    if i < j {
      PrefixSumMonotone(rates, i, j - 1);
      assert rates[..j][..j - 1] == rates[..j - 1];
    }
  }

  /** Over non-negative rates the running totals never decrease. */
  lemma CumulativeSumsNonDecreasing(rates: seq<real>)
    requires NonNegative(rates)
    ensures forall i, j :: 0 <= i <= j < |rates| ==>
      CumulativeSums(rates)[i] <= CumulativeSums(rates)[j]
  {
    var cum := CumulativeSums(rates);
    forall i, j | 0 <= i <= j < |rates| ensures cum[i] <= cum[j] {
      CumulativeSumsAt(rates, i);
      CumulativeSumsAt(rates, j);
      PrefixSumMonotone(rates, i + 1, j + 1);
    }
  }

  /** Running total i is running total i - 1 plus rate i. */
  lemma CumulativeStep(rates: seq<real>, i: nat)
    requires 0 < i < |rates|
    ensures CumulativeSums(rates)[i] == CumulativeSums(rates)[i - 1] + rates[i]
  {
    CumulativeSumsAt(rates, i);
    CumulativeSumsAt(rates, i - 1);
    assert rates[..i + 1][..i] == rates[..i];
  }

  /** `std::lower_bound`: the first position whose entry is not less than
      `r`, or |cum| when there is none. On a non-decreasing vector (the only
      kind the source passes) the binary search finds exactly this position;
      the model states it as a scan. */
  function LowerBound(cum: seq<real>, r: real): (k: nat)
    ensures k <= |cum|
    ensures forall i :: 0 <= i < k ==> cum[i] < r
    ensures k < |cum| ==> cum[k] >= r
  {
    if |cum| == 0 then 0
    else if cum[0] >= r then 0
    else 1 + LowerBound(cum[1..], r)
  }

  /** A draw u in [0, 1) scaled by a non-negative total stays at or below it,
      and strictly inside (0, total) when u > 0 and the total is positive. */
  lemma ScaledDrawWithinTotal(u: real, total: real)
    requires 0.0 <= u < 1.0 && total >= 0.0
    ensures 0.0 <= u * total <= total
    ensures total > 0.0 ==> u * total < total
    ensures total > 0.0 && u > 0.0 ==> u * total > 0.0
  {
    assert (1.0 - u) * total >= 0.0;
    assert total > 0.0 ==> (1.0 - u) * total > 0.0;
  }

  /** The choice on the running totals once the draw is scaled to `r`: one
      entry is taken without a draw; two entries give `r < cum[0] ? 0 : 1`;
      three or more give the `lower_bound` of `r`. When `r` does not exceed
      the last total the result is a valid position. */
  function ChooseScaled(cum: seq<real>, r: real): (k: nat)
    requires |cum| >= 1
    ensures |cum| == 1 ==> k == 0
    ensures r <= cum[|cum| - 1] ==> k < |cum|
  {
    if |cum| == 1 then 0
    else if |cum| == 2 then (if r < cum[0] then 0 else 1)
    else LowerBound(cum, r)
  }

  /** With three or more non-negative rates the chosen position k is the one
      whose interval (cum[k - 1], cum[k]] holds the scaled draw: every earlier
      running total is below it and cum[k] is not. */
  lemma ChooseScaledIsFirstCovering(rates: seq<real>, r: real)
    requires |rates| >= 3 && NonNegative(rates)
    requires r <= Sum(rates)
    ensures var cum := CumulativeSums(rates);
            var k := ChooseScaled(cum, r);
            k < |rates| && r <= cum[k] && forall i :: 0 <= i < k ==> cum[i] < r
  {
  }

  /** With two entries the explicit comparison agrees with `lower_bound`
      except when the scaled draw equals the first running total, where it
      picks 1 and `lower_bound` would pick 0. */
  lemma TwoEntriesAgreeWithLowerBound(rates: seq<real>, r: real)
    requires |rates| == 2 && r <= Sum(rates)
    ensures var cum := CumulativeSums(rates);
            (r != cum[0] ==> ChooseScaled(cum, r) == LowerBound(cum, r)) &&
            (r == cum[0] ==> ChooseScaled(cum, r) == 1 && LowerBound(cum, r) == 0)
  {
  }

  /** A scaled draw strictly between 0 and the total never lands on an entry
      whose rate is zero: a zero rate adds an empty interval. */
  lemma ScaledChoiceHasPositiveRate(rates: seq<real>, r: real)
    requires |rates| >= 1 && NonNegative(rates)
    requires 0.0 < r < Sum(rates)
    ensures rates[ChooseScaled(CumulativeSums(rates), r)] > 0.0
  {
    var cum := CumulativeSums(rates);
    var n := |rates|;
    var k := ChooseScaled(cum, r);
    if n == 1 {
      assert rates[..0] == [];
    } else if n == 2 {
      CumulativeStep(rates, 1);
      CumulativeSumsAt(rates, 0);
      assert rates[..1][..0] == [];
    } else {
      ChooseScaledIsFirstCovering(rates, r);
      if k > 0 {
        CumulativeStep(rates, k);
      } else {
        CumulativeSumsAt(rates, 0);
        assert rates[..1][..0] == [];
      }
    }
  }

  /** `rnd * cumRates.back()`: the uniform draw scaled by the total. For u in
      [0, 1) and a non-negative total it lies in [0, total], below a positive
      total, and above 0 when both u and the total are. */
  function ScaledDraw(u: real, total: real): (r: real)
    ensures 0.0 <= u < 1.0 && total >= 0.0 ==> 0.0 <= r <= total
    ensures 0.0 <= u < 1.0 && total > 0.0 ==> r < total
    ensures 0.0 < u < 1.0 && total > 0.0 ==> r > 0.0
  {
    assert 0.0 <= u < 1.0 && total >= 0.0 ==> 0.0 <= u * total <= total by {
      if 0.0 <= u < 1.0 && total >= 0.0 {
        ScaledDrawWithinTotal(u, total);
      }
    }
    assert 0.0 <= u < 1.0 && total > 0.0 ==> u * total < total by {
      if 0.0 <= u < 1.0 && total > 0.0 {
        ScaledDrawWithinTotal(u, total);
      }
    }
    assert 0.0 < u < 1.0 && total > 0.0 ==> u * total > 0.0 by {
      if 0.0 < u < 1.0 && total > 0.0 {
        ScaledDrawWithinTotal(u, total);
      }
    }
    u * total
  }

  /** The choice made by `choose_deme` and `chooseDeme`: the uniform draw u is
      scaled by the total of all rates and handed to `ChooseScaled`. For
      non-negative rates and u in [0, 1) the position is valid, and a draw
      above 0 never lands on a zero rate while some rate is positive. */
  function ChooseIndex(rates: seq<real>, u: real): (k: nat)
    requires |rates| >= 1
    ensures |rates| == 1 ==> k == 0
    ensures NonNegative(rates) && 0.0 <= u < 1.0 ==> k < |rates|
    ensures NonNegative(rates) && 0.0 < u < 1.0 && Sum(rates) > 0.0 ==> k < |rates| && rates[k] > 0.0
  {
    var cum := CumulativeSums(rates);
    var r := ScaledDraw(u, cum[|cum| - 1]);
    assert NonNegative(rates) ==> Sum(rates) >= 0.0 by {
      if NonNegative(rates) {
        SumNonNegative(rates);
      }
    }
    assert NonNegative(rates) && 0.0 < u < 1.0 && Sum(rates) > 0.0 ==> rates[ChooseScaled(cum, r)] > 0.0 by {
      if NonNegative(rates) && 0.0 < u < 1.0 && Sum(rates) > 0.0 {
        ScaledChoiceHasPositiveRate(rates, r);
      }
    }
    ChooseScaled(cum, r)
  }

  /** The kind of event a draw selects; the source returns the strings
      "birth", "death" and "fission". */
  datatype EventKind = Birth | Death | Fission

  /** The event-type comparison shared by both designs: scale the draw by the
      last entry of `cum`, then "birth" below entry 0, "death" below entry 1,
      "fission" otherwise. */
  function PickEvent(cum: seq<real>, u: real): EventKind
    requires |cum| >= 2
  {
    var res := ScaledDraw(u, cum[|cum| - 1]);
    if res < cum[0] then Birth else if res < cum[1] then Death else Fission
  }
}
