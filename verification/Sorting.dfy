/** Sorting with a comparator, the contract the C++ code takes from `std::sort`. */
module Sorting {

  /** A strict weak ordering: asymmetric, and "not before" is transitive. */
  ghost predicate StrictWeakOrder<T(!new)>(before: (T, T) -> bool) {
    && (forall x, y :: before(x, y) ==> !before(y, x))
    && (forall x, y, z :: !before(y, x) && !before(z, y) ==> !before(z, x))
  }

  predicate SortedBy<T>(s: seq<T>, before: (T, T) -> bool) {
    forall i, j :: 0 <= i < j < |s| ==> !before(s[j], s[i])
  }

  method Sort<T(!new, ==)>(items: seq<T>, before: (T, T) -> bool) returns (s: seq<T>)
    requires StrictWeakOrder(before)
    ensures multiset(s) == multiset(items) && SortedBy(s, before)
  {
    hide StrictWeakOrder, SortedBy;
    s := [];
    assert SortedBy(s, before) by { NothingIsSorted(before); }
    for i := 0 to |items|
      invariant multiset(s) == multiset(items[..i]) && SortedBy(s, before)
    {
      assert items[..i + 1] == items[..i] + [items[i]];
      s := Insert(s, items[i], before);
    }
    assert items[..|items|] == items;
  }

  /** Puts an item behind everything it does not come before. */
  method Insert<T(!new, ==)>(s: seq<T>, x: T, before: (T, T) -> bool) returns (t: seq<T>)
    requires StrictWeakOrder(before) && SortedBy(s, before)
    ensures multiset(t) == multiset(s) + multiset{x} && SortedBy(t, before)
  {
    hide StrictWeakOrder, SortedBy;
    var k := |s|;
    while k > 0 && before(x, s[k - 1])
      invariant 0 <= k <= |s|
      invariant forall j :: k <= j < |s| ==> before(x, s[j])
    {
      k := k - 1;
    }
    InsertKeepsSorted(s, k, x, before);
    assert s == s[..k] + s[k..];
    t := s[..k] + [x] + s[k..];
  }

  lemma {:induction false} NothingIsSorted<T(!new)>(before: (T, T) -> bool)
    ensures SortedBy<T>([], before)
  {
  }

  lemma {:induction false} InsertKeepsSorted<T(!new)>(s: seq<T>, k: nat, x: T, before: (T, T) -> bool)
    requires StrictWeakOrder(before) && SortedBy(s, before) && k <= |s|
    requires forall j :: k <= j < |s| ==> before(x, s[j])
    requires k > 0 ==> !before(x, s[k - 1])
    ensures SortedBy(s[..k] + [x] + s[k..], before)
  {
    var t := s[..k] + [x] + s[k..];
    forall i, j | 0 <= i < j < |t|
      ensures !before(t[j], t[i])
    {
      if j == k && i < k - 1 {
        assert !before(s[k - 1], s[i]);
      }
    }
  }

  /** An element at two positions occurs at least twice. */
  lemma TwoPositions<T>(s: seq<T>, i: nat, j: nat)
    requires i < j < |s| && s[i] == s[j]
    ensures multiset(s)[s[i]] >= 2
  {
    assert s == s[..j] + [s[j]] + s[j + 1..];
    assert s[i] in s[..j];
  }

  /** Sequences without repetitions and with the same elements are permutations of each other. */
  lemma DistinctSameElements<T>(s: seq<T>, t: seq<T>)
    requires forall x :: multiset(s)[x] <= 1 && multiset(t)[x] <= 1
    requires forall x :: x in s <==> x in t
    ensures multiset(s) == multiset(t)
  {
    assert forall x :: x in multiset(s) <==> x in s;
    assert forall x :: x in multiset(t) <==> x in t;
  }
}
