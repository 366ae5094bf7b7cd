/**
  sort.Slice with a "greater score first" comparator, as used by SemanticSearch
  and HybridSearch.  Go's sort.Slice is not stable, so the only promise is the
  one stated here: the slice ends up ordered by descending key and holds the
  same elements; the order of equal keys is left open.
 */
module Sorting {
  ghost predicate Descending<T>(s: seq<T>, key: T -> real) {
    forall i, j | 0 <= i < j < |s| :: key(s[i]) >= key(s[j])
  }

  /** In-place sort of a slice by descending key (an insertion sort). */
  method SortByKeyDescending<T>(a: array<T>, key: T -> real)
    modifies a
    ensures Descending(a[..], key)
    ensures multiset(a[..]) == old(multiset(a[..]))
  {
    var i := 0;
    while i < a.Length
      invariant 0 <= i <= a.Length
      invariant Descending(a[..i], key)
      invariant multiset(a[..]) == old(multiset(a[..]))
    {
      Insert(a, key, i);
      i := i + 1;
    }
    assert a[..] == a[..a.Length];
  }

  /** Moves a[i] down into the descending prefix a[..i]. */
  method Insert<T>(a: array<T>, key: T -> real, i: nat)
    requires i < a.Length
    requires Descending(a[..i], key)
    modifies a
    ensures Descending(a[..i + 1], key)
    ensures multiset(a[..]) == old(multiset(a[..]))
  {
    var j := i;
    while j > 0 && key(a[j - 1]) < key(a[j])
      invariant 0 <= j <= i
      invariant forall p, q | 0 <= p < q <= i && p != j && q != j :: key(a[p]) >= key(a[q])
      invariant forall q | j < q <= i :: key(a[j]) >= key(a[q])
      invariant multiset(a[..]) == old(multiset(a[..]))
    {
      Swap(a, j - 1, j);
      j := j - 1;
    }
  }

  /** Exchanges a[x] and a[y]; nothing else moves. */
  method Swap<T>(a: array<T>, x: nat, y: nat)
    requires x < a.Length && y < a.Length
    modifies a
    ensures a[x] == old(a[y]) && a[y] == old(a[x])
    ensures forall k | 0 <= k < a.Length && k != x && k != y :: a[k] == old(a[k])
    ensures multiset(a[..]) == old(multiset(a[..]))
  {
    a[x], a[y] := a[y], a[x];
  }
}
