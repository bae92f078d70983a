/**
 Sorting by a comparison, as the library's sort_by does it.
 */
module Sorting {

  /** The comparison orders the elements up to ties. */
  ghost predicate Ordering<T(!new)>(less: (T, T) -> bool) {
    && (forall x, y :: less(x, y) ==> !less(y, x))
    && (forall x, y, z :: !less(x, y) && !less(y, z) ==> !less(x, z))
  }

  ghost predicate Sorted<T>(s: seq<T>, less: (T, T) -> bool) {
    forall i, j | 0 <= i < j < |s| :: !less(s[j], s[i])
  }

  lemma SortedConcat<T>(s: seq<T>, s': seq<T>, less: (T, T) -> bool)
    requires Sorted(s, less) && Sorted(s', less) && forall t, u | t in s && u in s' :: !less(u, t)
    ensures Sorted(s + s', less)
  {
    var q := s + s';
    forall i, j | 0 <= i < j < |q| ensures !less(q[j], q[i]) {
      assert q[i] == if i < |s| then s[i] else s'[i - |s|];
      assert q[j] == if j < |s| then s[j] else s'[j - |s|];
    }
  }

  lemma InsertPermutes<T>(r: seq<T>, p: nat, x: T)
    requires p <= |r|
    ensures multiset(r[..p] + [x] + r[p..]) == multiset(r) + multiset{x}
  {
    assert r == r[..p] + r[p..];
  }

  lemma InsertSorts<T(!new)>(left: seq<T>, x: T, right: seq<T>, less: (T, T) -> bool)
    requires Ordering(less) && Sorted(left + right, less) && (left != [] ==> !less(x, left[|left| - 1]))
    requires forall u | u in right :: less(x, u)
    ensures Sorted(left + [x] + right, less)
  {
    var r := left + right;
    assert forall i | 0 <= i < |left| :: left[i] == r[i];
    assert forall i | 0 <= i < |right| :: right[i] == r[|left| + i];
    forall t | t in left ensures !less(x, t) {
      assert t == left[|left| - 1] || !less(left[|left| - 1], t);
    }
    SortedConcat(left, [x], less);
    SortedConcat(left + [x], right, less);
  }

  method Sort<T(!new, ==)>(s: seq<T>, less: (T, T) -> bool) returns (r: seq<T>)
    requires Ordering(less)
    ensures Sorted(r, less) && multiset(r) == multiset(s)
  {
    r := [];
    for i := 0 to |s|
      invariant Sorted(r, less) && multiset(r) == multiset(s[..i])
    {
      var p := |r|;
      while p > 0 && less(s[i], r[p - 1])
        invariant 0 <= p <= |r| && forall q | p <= q < |r| :: less(s[i], r[q])
      {
        p := p - 1;
      }
      assert s[..i + 1] == s[..i] + [s[i]];
      assert r == r[..p] + r[p..];
      InsertSorts(r[..p], s[i], r[p..], less);
      InsertPermutes(r, p, s[i]);
      r := r[..p] + [s[i]] + r[p..];
    }
    assert s[..|s|] == s;
  }
}
