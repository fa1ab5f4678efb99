/** Comparators and sorted sequences. */
module Ordering {

  /** A comparator as qsort wants it: the sign says how its arguments compare. */
  ghost predicate Comparator<T(!new)>(cmp: (T, T) -> int) {
    && Flips(cmp)
    && (forall a, b, c :: cmp(a, b) <= 0 && cmp(b, c) <= 0 ==> cmp(a, c) <= 0)
  }

  ghost predicate Flips<T(!new)>(cmp: (T, T) -> int) {
    forall a, b :: cmp(a, b) > 0 <==> cmp(b, a) < 0
  }

  ghost predicate Sorted<T>(cmp: (T, T) -> int, s: seq<T>) {
    forall i, j :: 0 <= i < j < |s| ==> cmp(s[i], s[j]) <= 0
  }

  function Insert<T>(s: seq<T>, j: nat, x: T): seq<T>
    requires j <= |s|
  {
    s[..j] + [x] + s[j..]
  }

  /** Where a search from the start stops: before the first item not below x. */
  ghost predicate LowSlot<T>(cmp: (T, T) -> int, s: seq<T>, x: T, j: nat) {
    && j <= |s|
    && (forall k :: 0 <= k < j ==> cmp(x, s[k]) > 0)
    && (j < |s| ==> cmp(x, s[j]) <= 0)
  }

  /** Where a search from the end stops: after the last item not above x. */
  ghost predicate HighSlot<T>(cmp: (T, T) -> int, s: seq<T>, x: T, j: nat) {
    && j <= |s|
    && (forall k :: j <= k < |s| ==> cmp(s[k], x) > 0)
    && (j > 0 ==> cmp(s[j - 1], x) <= 0)
  }

  lemma NotAboveSlot<T(!new)>(cmp: (T, T) -> int, s: seq<T>, x: T, j: nat, k: nat)
    requires Comparator(cmp) && Sorted(cmp, s) && (LowSlot(cmp, s, x, j) || HighSlot(cmp, s, x, j)) && k < j
    ensures cmp(s[k], x) <= 0
  {
    if !LowSlot(cmp, s, x, j) && k < j - 1 {
      assert cmp(s[k], s[j - 1]) <= 0;
    }
  }

  lemma NotBelowSlot<T(!new)>(cmp: (T, T) -> int, s: seq<T>, x: T, j: nat, k: nat)
    requires Comparator(cmp) && Sorted(cmp, s) && (LowSlot(cmp, s, x, j) || HighSlot(cmp, s, x, j)) && j <= k < |s|
    ensures cmp(x, s[k]) <= 0
  {
    if !HighSlot(cmp, s, x, j) && j < k {
      assert cmp(s[j], s[k]) <= 0;
    }
  }

  lemma InsertBetween<T>(cmp: (T, T) -> int, s: seq<T>, x: T, j: nat)
    requires Sorted(cmp, s) && j <= |s|
    requires forall k :: 0 <= k < j ==> cmp(s[k], x) <= 0
    requires forall k :: j <= k < |s| ==> cmp(x, s[k]) <= 0
    ensures Sorted(cmp, Insert(s, j, x))
    ensures multiset(Insert(s, j, x)) == multiset(s) + multiset{x}
  {
    assert s == s[..j] + s[j..];
  }

  /** Inserting at either slot keeps a sorted sequence sorted and adds nothing but x.  The low slot is
      before the items equal to x, the high slot after them. */
  lemma SlotsKeepSorted<T(!new)>(cmp: (T, T) -> int, s: seq<T>, x: T, j: nat)
    requires Comparator(cmp) && Sorted(cmp, s) && (LowSlot(cmp, s, x, j) || HighSlot(cmp, s, x, j))
    ensures Sorted(cmp, Insert(s, j, x))
    ensures multiset(Insert(s, j, x)) == multiset(s) + multiset{x}
  {
    forall k | 0 <= k < j
      ensures cmp(s[k], x) <= 0
    {
      NotAboveSlot(cmp, s, x, j, k);
    }
    forall k | j <= k < |s|
      ensures cmp(x, s[k]) <= 0
    {
      NotBelowSlot(cmp, s, x, j, k);
    }
    InsertBetween(cmp, s, x, j);
  }

  /** In a sorted sequence the low slot is exactly behind the items below x, and the high slot exactly behind
      those not above it. */
  lemma SlotsAmongEquals<T(!new)>(cmp: (T, T) -> int, s: seq<T>, x: T, j: nat)
    requires Comparator(cmp) && Sorted(cmp, s) && j <= |s|
    ensures LowSlot(cmp, s, x, j) <==> forall k :: 0 <= k < |s| ==> (cmp(s[k], x) < 0 <==> k < j)
    ensures HighSlot(cmp, s, x, j) <==> forall k :: 0 <= k < |s| ==> (cmp(s[k], x) <= 0 <==> k < j)
  {
    if LowSlot(cmp, s, x, j) {
      forall k | j <= k < |s|
        ensures cmp(s[k], x) >= 0
      {
        NotBelowSlot(cmp, s, x, j, k);
      }
    }
    if HighSlot(cmp, s, x, j) {
      forall k | 0 <= k < j
        ensures cmp(s[k], x) <= 0
      {
        NotAboveSlot(cmp, s, x, j, k);
      }
    }
  }

  // ----- Sorting by swaps -----

  function Swap<T>(s: seq<T>, i: nat, j: nat): seq<T>
    requires i < |s| && j < |s|
  {
    s[i := s[j]][j := s[i]]
  }

  lemma SwapIsPermutation<T>(s: seq<T>, i: nat, j: nat)
    requires i < j < |s|
    ensures multiset(Swap(s, i, j)) == multiset(s)
  {
  }

  /** How many items of s come after x although they belong before it. */
  function Misplaced<T>(cmp: (T, T) -> int, x: T, s: seq<T>): nat {
    if s == [] then 0 else (if cmp(x, s[0]) > 0 then 1 else 0) + Misplaced(cmp, x, s[1..])
  }

  function Inversions<T>(cmp: (T, T) -> int, s: seq<T>): nat {
    if s == [] then 0 else Misplaced(cmp, s[0], s[1..]) + Inversions(cmp, s[1..])
  }

  lemma SwapTail<T>(s: seq<T>, i: nat)
    requires 0 < i < |s| - 1
    ensures Swap(s, i, i + 1)[0] == s[0] && Swap(s, i, i + 1)[1..] == Swap(s[1..], i - 1, i)
  {
  }

  lemma {:induction false} MisplacedSwap<T>(cmp: (T, T) -> int, x: T, s: seq<T>, i: nat)
    requires i < |s| - 1
    ensures Misplaced(cmp, x, Swap(s, i, i + 1)) == Misplaced(cmp, x, s)
    decreases i
  {
    if i > 0 {
      SwapTail(s, i);
      MisplacedSwap(cmp, x, s[1..], i - 1);
    } else {
      var t := Swap(s, 0, 1);
      assert t[1..][1..] == s[1..][1..];
      assert t[1..][0] == s[0] && s[1..][0] == s[1];
    }
  }

  /** Swapping two neighbours that are out of order removes an inversion. */
  lemma {:induction false} InversionsSwap<T>(cmp: (T, T) -> int, s: seq<T>, i: nat)
    requires i < |s| - 1 && cmp(s[i], s[i + 1]) > 0 && cmp(s[i + 1], s[i]) <= 0
    ensures Inversions(cmp, Swap(s, i, i + 1)) < Inversions(cmp, s)
    decreases i
  {
    if i > 0 {
      SwapTail(s, i);
      MisplacedSwap(cmp, s[0], s[1..], i - 1);
      InversionsSwap(cmp, s[1..], i - 1);
    } else {
      var t, rest := Swap(s, 0, 1), s[2..];
      assert t[1..][1..] == rest && s[1..][1..] == rest;
      assert t[1..][0] == s[0] && s[1..][0] == s[1];
    }
  }

  /** The items at k and `gap` further on are in order. */
  ghost predicate InOrder<T>(cmp: (T, T) -> int, s: seq<T>, gap: nat, k: nat) {
    k + gap < |s| ==> cmp(s[k], s[k + gap]) <= 0
  }

  lemma {:induction false} NeighboursSorted<T(!new)>(cmp: (T, T) -> int, s: seq<T>, i: nat, j: nat)
    requires Comparator(cmp) && i < j < |s|
    requires forall k :: 0 <= k < |s| ==> InOrder(cmp, s, 1, k)
    ensures cmp(s[i], s[j]) <= 0
    decreases j
  {
    assert InOrder(cmp, s, 1, j - 1);
    if i < j - 1 {
      NeighboursSorted(cmp, s, i, j - 1);
    }
  }

  /** What a pass of the comb has made of the items `was` once the first b pairs, `gap` apart, are
      compared: a permutation, and with neighbours compared a swap leaves fewer inversions. */
  ghost predicate PassedOver<T>(cmp: (T, T) -> int, gap: nat, b: nat, was: seq<T>, now: seq<T>, swapped: bool) {
    && |now| == |was| && multiset(now) == multiset(was)
    && (!swapped ==> now == was && forall k :: 0 <= k < b ==> InOrder(cmp, now, gap, k))
    && (gap == 1 ==> Fewer(cmp, was, now, swapped))
  }

  ghost predicate Fewer<T>(cmp: (T, T) -> int, was: seq<T>, now: seq<T>, strictly: bool) {
    if strictly then Inversions(cmp, now) < Inversions(cmp, was) else Inversions(cmp, now) <= Inversions(cmp, was)
  }

  lemma SwapLeavesFewer<T>(cmp: (T, T) -> int, b: nat, was: seq<T>, now: seq<T>, swapped: bool)
    requires Fewer(cmp, was, now, swapped) && b + 1 < |now| && cmp(now[b], now[b + 1]) > 0
      && cmp(now[b + 1], now[b]) <= 0
    ensures Fewer(cmp, was, Swap(now, b, b + 1), true)
  {
    InversionsSwap(cmp, now, b);
  }

  lemma PassSwap<T>(cmp: (T, T) -> int, gap: nat, b: nat, was: seq<T>, now: seq<T>, swapped: bool)
    requires PassedOver(cmp, gap, b, was, now, swapped) && 1 <= gap && b + gap < |now|
    requires cmp(now[b], now[b + gap]) > 0 && cmp(now[b + gap], now[b]) <= 0
    ensures PassedOver(cmp, gap, b + 1, was, Swap(now, b, b + gap), true)
  {
    var next := Swap(now, b, b + gap);
    assert |next| == |now|;
    assert multiset(next) == multiset(was) by {
      SwapIsPermutation(now, b, b + gap);
    }
    if gap == 1 {
      SwapLeavesFewer(cmp, b, was, now, swapped);
    }
  }

  /** Comparing one more pair, and swapping it if it is out of order. */
  lemma PassStep<T(!new)>(cmp: (T, T) -> int, gap: nat, b: nat, was: seq<T>, now: seq<T>, swapped: bool)
    requires PassedOver(cmp, gap, b, was, now, swapped) && 1 <= gap && b + gap < |now| && Flips(cmp)
    ensures
      if cmp(now[b], now[b + gap]) > 0 then PassedOver(cmp, gap, b + 1, was, Swap(now, b, b + gap), true)
      else PassedOver(cmp, gap, b + 1, was, now, swapped)
  {
    if cmp(now[b], now[b + gap]) > 0 {
      PassSwap(cmp, gap, b, was, now, swapped);
    }
  }

  // ----- Filtering -----

  function Keep<T>(drop: T -> bool, s: seq<T>): seq<T> {
    if s == [] then []
    else Keep(drop, s[..|s| - 1]) + if drop(s[|s| - 1]) then [] else [s[|s| - 1]]
  }
}
