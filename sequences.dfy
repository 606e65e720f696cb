/** Sequence helpers for the index-stable container edits: `vector::erase`,
    the descending sort of the chosen indices, and the facts about distinct
    indices that make erasing them one after the other safe. */
module Sequences {

  /** Positions i < j hold different values. */
  predicate Distinct<T(==)>(s: seq<T>) {
    forall i, j :: 0 <= i < j < |s| ==> s[i] != s[j]
  }

  predicate NonIncreasing(s: seq<int>) {
    forall i, j :: 0 <= i < j < |s| ==> s[i] >= s[j]
  }

  predicate StrictlyDescending(s: seq<int>) {
    forall i, j :: 0 <= i < j < |s| ==> s[i] > s[j]
  }

  /** `perm` is a rearrangement of 0, 1, ..., n - 1: what `std::iota` followed
      by `std::shuffle` produces. */
  predicate IsPermutation(perm: seq<nat>, n: nat) {
    |perm| == n && Distinct(perm) && forall i :: 0 <= i < |perm| ==> perm[i] < n
  }

  /** `v.erase(v.begin() + k)`: everything after position k moves down by one. */
  function EraseAt<T>(s: seq<T>, k: nat): (r: seq<T>)
    requires k < |s|
    ensures |r| == |s| - 1
    ensures forall i :: 0 <= i < k ==> r[i] == s[i]
    ensures forall i :: k <= i < |r| ==> r[i] == s[i + 1]
  {
    s[..k] + s[k + 1..]
  }

  /** Erasing position k removes one copy of s[k] and nothing else. */
  lemma EraseAtMultiset<T>(s: seq<T>, k: nat)
    requires k < |s|
    ensures multiset(EraseAt(s, k)) + multiset{s[k]} == multiset(s)
  {
    assert s == s[..k] + [s[k]] + s[k + 1..];
  }

  /** Insert `x` before the first entry it is not below. */
  function InsertDescending(x: nat, s: seq<nat>): (r: seq<nat>)
    ensures |r| == |s| + 1
    ensures multiset(r) == multiset(s) + multiset{x}
  {
    if |s| == 0 || x >= s[0] then
      [x] + s
    else
      assert s == [s[0]] + s[1..];
      [s[0]] + InsertDescending(x, s[1..])
  }

  /** Every entry of the insertion result is `x` or an entry of `s`. */
  lemma InsertedFrom(x: nat, s: seq<nat>, v: nat)
    requires v in InsertDescending(x, s)
    ensures v == x || v in s
  {
    assert v in multiset(InsertDescending(x, s));
  }

  /** Inserting into a non-increasing sequence keeps it non-increasing. */
  lemma {:induction false} InsertKeepsOrder(x: nat, s: seq<nat>)
    requires NonIncreasing(s)
    ensures NonIncreasing(InsertDescending(x, s))
  {
    if |s| == 0 || x >= s[0] {
    } else {
      var rest := InsertDescending(x, s[1..]);
      InsertKeepsOrder(x, s[1..]);
      forall j | 0 <= j < |rest| ensures s[0] >= rest[j] {
        InsertedFrom(x, s[1..], rest[j]);
      }
    }
  }

  /** Inserting a new value into a sequence of distinct values keeps the
      values distinct. */
  lemma {:induction false} InsertKeepsDistinct(x: nat, s: seq<nat>)
    requires Distinct(s) && x !in s
    ensures Distinct(InsertDescending(x, s))
  {
    if |s| == 0 || x >= s[0] {
    } else {
      var rest := InsertDescending(x, s[1..]);
      assert s == [s[0]] + s[1..];
      InsertKeepsDistinct(x, s[1..]);
      forall j | 0 <= j < |rest| ensures s[0] != rest[j] {
        InsertedFrom(x, s[1..], rest[j]);
      }
    }
  }

  /** `std::sort(first, last, std::greater<int>())`, as an insertion sort. */
  function SortDescending(s: seq<nat>): (r: seq<nat>)
    ensures |r| == |s|
    ensures multiset(r) == multiset(s)
  {
    if |s| == 0 then []
    else
      assert s == [s[0]] + s[1..];
      InsertDescending(s[0], SortDescending(s[1..]))
  }

  /** The sort leaves its values in non-increasing order. */
  lemma {:induction false} SortDescendingNonIncreasing(s: seq<nat>)
    ensures NonIncreasing(SortDescending(s))
  {
    if |s| > 0 {
      SortDescendingNonIncreasing(s[1..]);
      InsertKeepsOrder(s[0], SortDescending(s[1..]));
    }
  }

  /** Sorting distinct values keeps them distinct. */
  lemma {:induction false} SortDescendingDistinct(s: seq<nat>)
    requires Distinct(s)
    ensures Distinct(SortDescending(s))
  {
    if |s| > 0 {
      var tail := SortDescending(s[1..]);
      assert s == [s[0]] + s[1..];
      assert Distinct(s[1..]);
      SortDescendingDistinct(s[1..]);
      assert s[0] !in multiset(s[1..]);
      assert s[0] !in tail by { assert multiset(tail) == multiset(s[1..]); }
      InsertKeepsDistinct(s[0], tail);
    }
  }

  /** The sort leaves its values in non-increasing order, strictly descending
      when the values are distinct. */
  lemma SortDescendingOrders(s: seq<nat>)
    ensures NonIncreasing(SortDescending(s))
    ensures Distinct(s) ==> StrictlyDescending(SortDescending(s))
  {
    var r := SortDescending(s);
    SortDescendingNonIncreasing(s);
    if Distinct(s) {
      SortDescendingDistinct(s);
      forall i, j | 0 <= i < j < |r| ensures r[i] > r[j] {
        assert r[i] >= r[j] && r[i] != r[j];
      }
    }
  }

  /** In a strictly descending sequence each step down is at least one, so
      entry i lies at least i below entry 0. */
  lemma {:induction false} DescendingGap(s: seq<int>, i: nat)
    requires StrictlyDescending(s)
    requires i < |s|
    ensures s[i] + i <= s[0]
    decreases i
  {
    if i > 0 {
      DescendingGap(s, i - 1);
    }
  }

  /** Erasing strictly descending positions one after the other from a list of
      length n: the i-th erased position is below n - i, the length the list
      has by then. */
  lemma DescendingFitsShrinkingList(s: seq<nat>, n: nat)
    requires StrictlyDescending(s)
    requires forall i :: 0 <= i < |s| ==> s[i] < n
    ensures forall i :: 0 <= i < |s| ==> s[i] + i < n
  {
    forall i | 0 <= i < |s| ensures s[i] + i < n {
      DescendingGap(s, i);
    }
  }

  /** Every value taken from a permutation of 0..n-1 is below n, and any prefix
      of it has distinct entries. */
  lemma PermutationPrefix(perm: seq<nat>, n: nat, k: nat)
    requires IsPermutation(perm, n)
    requires k <= n
    ensures Distinct(perm[..k])
    ensures forall i :: 0 <= i < k ==> perm[..k][i] < n
  {
  }
}
