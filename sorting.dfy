/** The ordering half of Python's list.sort with a key: an insertion sort by a total preorder,
    returning a sorted permutation of its input. */
module Sorting {

  /** leq relates any two elements one way or the other and is transitive. */
  ghost predicate TotalPreorder<T(!new)>(leq: (T, T) -> bool)
  {
    && (forall a, b :: leq(a, b) || leq(b, a))
    && (forall a, b, c :: leq(a, b) && leq(b, c) ==> leq(a, c))
  }

  predicate Sorted<T>(s: seq<T>, leq: (T, T) -> bool)
  {
    forall i, j :: 0 <= i < j < |s| ==> leq(s[i], s[j])
  }

  /** Inserts x after the last element that is not above it. */
  method Insert<T(!new)>(r: seq<T>, x: T, leq: (T, T) -> bool) returns (t: seq<T>)
    requires TotalPreorder(leq) && Sorted(r, leq)
    ensures Sorted(t, leq)
    ensures multiset(t) == multiset(r) + multiset{x}
  {
    var j := |r|;
    while j > 0 && !leq(r[j - 1], x)
      invariant 0 <= j <= |r|
      invariant forall k :: j <= k < |r| ==> leq(x, r[k])
    {
      j := j - 1;
    }
    t := r[..j] + [x] + r[j..];
    assert r == r[..j] + r[j..];
    InsertedSorted(r, x, j, leq);
  }

  /** Placing x after the elements not above it and before the rest keeps a list sorted. */
  lemma InsertedSorted<T(!new)>(r: seq<T>, x: T, j: nat, leq: (T, T) -> bool)
    requires TotalPreorder(leq) && Sorted(r, leq) && j <= |r|
    requires j > 0 ==> leq(r[j - 1], x)
    requires forall k :: j <= k < |r| ==> leq(x, r[k])
    ensures Sorted(r[..j] + [x] + r[j..], leq)
  {
    var t := r[..j] + [x] + r[j..];
    assert forall k :: 0 <= k < j ==> t[k] == r[k];
    assert forall k :: j < k < |t| ==> t[k] == r[k - 1];
    forall a, b | 0 <= a < b < |t| ensures leq(t[a], t[b]) {
      if b < j || a > j {
        assert leq(r[if a < j then a else a - 1], r[if b < j then b else b - 1]);
      } else if b == j {
        if a < j - 1 {
          assert leq(r[a], r[j - 1]);
        }
      } else if a == j {
        assert leq(x, r[b - 1]);
      } else {
        assert leq(r[a], r[b - 1]);
      }
    }
  }

  /** A sorted permutation of s. */
  method InsertionSort<T(!new)>(s: seq<T>, leq: (T, T) -> bool) returns (r: seq<T>)
    requires TotalPreorder(leq)
    ensures Sorted(r, leq)
    ensures multiset(r) == multiset(s)
  {
    r := [];
    var i := 0;
    while i < |s|
      invariant 0 <= i <= |s|
      invariant Sorted(r, leq)
      invariant multiset(r) == multiset(s[..i])
    {
      r := Insert(r, s[i], leq);
      assert s[..i + 1] == s[..i] + [s[i]];
      i := i + 1;
    }
    assert s[..i] == s;
  }
}
