/** The array operations the services are built from: `filter` and `findIndex`. */
module Sequences {
  import opened Wrappers

  /** The elements of `a` occur in `b` in the same order (not necessarily adjacent). */
  predicate IsSubsequence<T(==)>(a: seq<T>, b: seq<T>)
    decreases |b|
  {
    if a == [] then true
    else if b == [] then false
    else (a[0] == b[0] && IsSubsequence(a[1..], b[1..])) || IsSubsequence(a, b[1..])
  }

  /** `r` holds exactly the elements of `s` that satisfy `p`, each as often as in `s`,
      in the order of `s`. */
  ghost predicate FilteredBy<T(!new)>(r: seq<T>, s: seq<T>, p: T -> bool)
  {
    IsSubsequence(r, s) &&
    forall x :: multiset(r)[x] == if p(x) then multiset(s)[x] else 0
  }

  /** `Array.prototype.filter`. */
  function Filter<T(!new)>(s: seq<T>, p: T -> bool): (r: seq<T>)
    ensures FilteredBy(r, s, p)
  {
    if s == [] then []
    else
      var rest := Filter(s[1..], p);
      assert s == [s[0]] + s[1..];
      if p(s[0]) then [s[0]] + rest else rest
  }

  /** `Array.prototype.findIndex`, with `None` for its `-1`. */
  function FirstIndex<T>(s: seq<T>, p: T -> bool): (r: Option<nat>)
    ensures r.None? <==> forall k :: 0 <= k < |s| ==> !p(s[k])
    ensures r.Some? ==> r.value < |s| && p(s[r.value])
    ensures r.Some? ==> forall k :: 0 <= k < r.value ==> !p(s[k])
  {
    if s == [] then None
    else if p(s[0]) then Some(0)
    else match FirstIndex(s[1..], p)
      case None => None
      case Some(k) => Some(k + 1)
  }

  /** A subsequence holds no element more often than the sequence it is taken from. */
  lemma {:induction false} SubsequenceMultiset<T>(a: seq<T>, b: seq<T>)
    requires IsSubsequence(a, b)
    ensures multiset(a) <= multiset(b)
    decreases |b|
  {
    if a != [] {
      assert b == [b[0]] + b[1..];
      if a[0] == b[0] && IsSubsequence(a[1..], b[1..]) {
        SubsequenceMultiset(a[1..], b[1..]);
        assert a == [a[0]] + a[1..];
      } else {
        SubsequenceMultiset(a, b[1..]);
      }
    }
  }

  /** `FilteredBy` determines its sequence: whatever satisfies it is what `filter` returns. */
  lemma {:induction false} FilteredByUnique<T(!new)>(r: seq<T>, s: seq<T>, p: T -> bool)
    requires FilteredBy(r, s, p)
    ensures r == Filter(s, p)
    decreases |s|
  {
    if s != [] {
      var x, t := s[0], s[1..];
      assert s == [x] + t;
      if p(x) {
        assert multiset(r)[x] == multiset(s)[x] == multiset(t)[x] + 1;
        if r == [] || !(r[0] == x && IsSubsequence(r[1..], t)) {
          if r != [] {
            SubsequenceMultiset(r, t);
          }
          assert false;
        }
        assert r == [x] + r[1..];
        forall y ensures multiset(r[1..])[y] == if p(y) then multiset(t)[y] else 0 {
          assert multiset(r)[y] == multiset(r[1..])[y] + if y == x then 1 else 0;
        }
        FilteredByUnique(r[1..], t, p);
      } else {
        assert IsSubsequence(r, t);
        forall y ensures multiset(r)[y] == if p(y) then multiset(t)[y] else 0 {
          if p(y) {
            assert y != x;
          }
        }
        FilteredByUnique(r, t, p);
      }
    }
  }

  /** Filtering with a predicate every element satisfies returns the sequence itself. */
  lemma {:induction false} FilterAll<T(!new)>(s: seq<T>, p: T -> bool)
    requires forall k :: 0 <= k < |s| ==> p(s[k])
    ensures Filter(s, p) == s
  {
    if s != [] {
      FilterAll(s[1..], p);
    }
  }
}
