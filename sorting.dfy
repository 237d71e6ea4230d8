/** In-place sorting by a numeric key, as `Array.prototype.sort` with a difference comparator. */
module Sorting {

  predicate SortedBy<T>(s: seq<T>, key: T -> real)
  {
    forall i, j :: 0 <= i < j < |s| ==> key(s[i]) <= key(s[j])
  }

  /**
   * The state of one insertion: the first `i + 1` elements are in order except for the
   * element at `j`, which is no greater than those after it.
   */
  predicate Inserting<T>(s: seq<T>, key: T -> real, i: int, j: int)
  {
    && 0 <= j <= i < |s|
    && (forall k, l :: 0 <= k < l <= i && k != j && l != j ==> key(s[k]) <= key(s[l]))
    && (forall l :: j < l <= i ==> key(s[j]) <= key(s[l]))
  }

  lemma InsertingStart<T>(s: seq<T>, key: T -> real, i: int)
    requires 0 <= i < |s| && SortedBy(s[..i], key)
    ensures Inserting(s, key, i, i)
  {
    forall k, l | 0 <= k < l <= i && k != i && l != i
      ensures key(s[k]) <= key(s[l])
    {
      assert s[k] == s[..i][k] && s[l] == s[..i][l];
    }
  }

  lemma InsertingSwap<T>(s: seq<T>, key: T -> real, i: int, j: int)
    requires Inserting(s, key, i, j) && j > 0 && key(s[j - 1]) > key(s[j])
    ensures Inserting(s[j - 1 := s[j]][j := s[j - 1]], key, i, j - 1)
  {
  }

  lemma InsertingDone<T>(s: seq<T>, key: T -> real, i: int, j: int)
    requires Inserting(s, key, i, j) && (j == 0 || key(s[j - 1]) <= key(s[j]))
    ensures SortedBy(s[..i + 1], key)
  {
    var t := s[..i + 1];
    forall k, l | 0 <= k < l < |t|
      ensures key(t[k]) <= key(t[l])
    {
      if l == j && k < j - 1 {
        assert key(s[k]) <= key(s[j - 1]);
      }
    }
  }

  lemma SwapKeepsMultiset<T>(s: seq<T>, j: int)
    requires 0 < j < |s|
    ensures multiset(s[j - 1 := s[j]][j := s[j - 1]]) == multiset(s)
  {
  }

  /** `Array.prototype.sort` with the comparator `key(a) - key(b)`, in place (an insertion sort). */
  method SortByKey<T>(a: array<T>, key: T -> real)
    modifies a
    ensures SortedBy(a[..], key)
    ensures multiset(a[..]) == multiset(old(a[..]))
  {
    for i := 0 to a.Length
      invariant SortedBy(a[..i], key)
      invariant multiset(a[..]) == multiset(old(a[..]))
    {
      Insert(a, key, i);
    }
    assert a[..a.Length] == a[..];
  }

  /** One insertion: `a[i]` moves down past the greater elements before it. */
  method Insert<T>(a: array<T>, key: T -> real, i: int)
    requires 0 <= i < a.Length && SortedBy(a[..i], key)
    modifies a
    ensures SortedBy(a[..i + 1], key)
    ensures multiset(a[..]) == multiset(old(a[..]))
  {
    InsertingStart(a[..], key, i);
    var j := i;
    while j > 0 && key(a[j - 1]) > key(a[j])
      invariant Inserting(a[..], key, i, j)
      invariant multiset(a[..]) == multiset(old(a[..]))
    {
      ghost var s := a[..];
      InsertingSwap(s, key, i, j);
      SwapKeepsMultiset(s, j);
      a[j - 1], a[j] := a[j], a[j - 1];
      assert a[..] == s[j - 1 := s[j]][j := s[j - 1]];
      j := j - 1;
    }
    InsertingDone(a[..], key, i, j);
  }
}
