/**
 Ordering of records by an integer key.

 Django applies a model's `Meta.ordering` (and an explicit `order_by`) when a
 queryset is evaluated. The database does not promise anything about records
 whose keys tie; this model fixes one deterministic choice, a stable
 insertion sort, so that ties keep their original relative order.
 */
module Ordering {

  /** `s` is in non-decreasing order of `key`. */
  predicate SortedBy<T>(s: seq<T>, key: T -> int) {
    forall i, j :: 0 <= i < j < |s| ==> key(s[i]) <= key(s[j])
  }

  /** Inserts `x` before the first element whose key is not smaller than its own. */
  function InsertBy<T>(x: T, s: seq<T>, key: T -> int): (r: seq<T>)
    ensures |r| == |s| + 1
    ensures multiset(r) == multiset{x} + multiset(s)
    ensures r[0] == x || (|s| > 0 && r[0] == s[0])
    ensures SortedBy(s, key) ==> SortedBy(r, key)
  {
    if |s| == 0 || key(x) <= key(s[0]) then
      [x] + s
    else
      var rest := InsertBy(x, s[1..], key);
      assert s == [s[0]] + s[1..];
      assert SortedBy(s, key) ==> SortedBy([s[0]] + rest, key) by {
        if SortedBy(s, key) {
          assert SortedBy(s[1..], key);
          ConsSorted(s[0], rest, key);
        }
      }
      [s[0]] + rest
  }

  /** Putting an element no larger than the head in front of a sorted sequence keeps it sorted. */
  lemma ConsSorted<T>(x: T, s: seq<T>, key: T -> int)
    requires SortedBy(s, key) && (|s| > 0 ==> key(x) <= key(s[0]))
    ensures SortedBy([x] + s, key)
  {
    forall i, j | 0 <= i < j < |s| + 1
      ensures key(([x] + s)[i]) <= key(([x] + s)[j])
    {
      if i == 0 {
        assert key(s[0]) <= key(s[j - 1]);
      }
    }
  }

  /** Sorts `s` by `key`, keeping records with equal keys in their original order. */
  function SortBy<T>(s: seq<T>, key: T -> int): (r: seq<T>)
    ensures |r| == |s|
    ensures multiset(r) == multiset(s)
    ensures SortedBy(r, key)
  {
    if |s| == 0 then
      []
    else
      assert s == [s[0]] + s[1..];
      InsertBy(s[0], SortBy(s[1..], key), key)
  }

  /** Sorting a sequence that is already in order leaves it unchanged. */
  lemma {:induction false} SortSortedIsIdentity<T>(s: seq<T>, key: T -> int)
    requires SortedBy(s, key)
    ensures SortBy(s, key) == s
  {
    if |s| > 0 {
      assert SortedBy(s[1..], key);
      SortSortedIsIdentity(s[1..], key);
      assert s == [s[0]] + s[1..];
    }
  }
}
