/**
  Sequence helpers behind the membership lists and the document lookups:
  duplicate-freedom, the `filter` that removes every occurrence of an id,
  and "first element satisfying a predicate" (a collection scan in natural order).
 */
module Lists {
  import opened Prelude

  /** No element occurs twice. */
  predicate NoDup<T(==)>(s: seq<T>) {
    forall i, j :: 0 <= i < j < |s| ==> s[i] != s[j]
  }

  /** `a` can be obtained from `b` by deleting elements, keeping the order of the rest. */
  predicate IsSubsequence<T(==)>(a: seq<T>, b: seq<T>)
    decreases |b|
  {
    a == [] || (b != [] && if a[0] == b[0] then IsSubsequence(a[1..], b[1..]) else IsSubsequence(a, b[1..]))
  }

  /** `s.filter(y => y !== x)`: every occurrence of `x` dropped, the rest kept in order. */
  function Without<T(==)>(s: seq<T>, x: T): (r: seq<T>)
    ensures x !in r
    ensures |r| <= |s|
  {
    if s == [] then []
    else if s[0] == x then Without(s[1..], x)
    else [s[0]] + Without(s[1..], x)
  }

  /** Index of the first element satisfying `p`, scanning from the front. */
  function FirstIndex<T>(s: seq<T>, p: T -> bool): (r: Option<nat>)
    ensures r.Some? ==> r.value < |s| && p(s[r.value])
    ensures r.Some? ==> forall j :: 0 <= j < r.value ==> !p(s[j])
    ensures r.None? <==> forall j :: 0 <= j < |s| ==> !p(s[j])
  {
    if s == [] then None
    else if p(s[0]) then Some(0)
    else match FirstIndex(s[1..], p)
      case None => None
      case Some(k) => Some(k + 1)
  }

  /** Appending an absent element keeps a list duplicate-free. */
  lemma AppendFreshNoDup<T>(s: seq<T>, x: T)
    requires NoDup(s) && x !in s
    ensures NoDup(s + [x])
  {
  }

  /** Filtering an element that does not occur changes nothing. */
  lemma {:induction false} WithoutAbsent<T>(s: seq<T>, x: T)
    requires x !in s
    ensures Without(s, x) == s
  {
    if s != [] {
      WithoutAbsent(s[1..], x);
      assert s == [s[0]] + s[1..];
    }
  }

  /** Filtering distributes over concatenation. */
  lemma {:induction false} WithoutAppend<T>(s: seq<T>, t: seq<T>, x: T)
    ensures Without(s + t, x) == Without(s, x) + Without(t, x)
  {
    if s == [] {
      assert s + t == t;
    } else {
      assert (s + t)[0] == s[0];
      assert (s + t)[1..] == s[1..] + t;
      WithoutAppend(s[1..], t, x);
    }
  }

  /** Appending `x` and then filtering `x` out gives back a list that did not hold `x`. */
  lemma AppendThenWithout<T>(s: seq<T>, x: T)
    requires x !in s
    ensures Without(s + [x], x) == s
  {
    WithoutAppend(s, [x], x);
    WithoutAbsent(s, x);
    assert Without([x], x) == [];
  }

  /** Filtering removes exactly the occurrences of `x`: every other element keeps its multiplicity. */
  lemma {:induction false} WithoutCounts<T>(s: seq<T>, x: T)
    ensures multiset(Without(s, x)) == multiset(s)[x := 0]
  {
    if s != [] {
      WithoutCounts(s[1..], x);
      assert s == [s[0]] + s[1..];
      assert multiset(s) == multiset([s[0]]) + multiset(s[1..]);
      if s[0] != x {
        assert multiset([s[0]] + Without(s[1..], x)) == multiset([s[0]]) + multiset(Without(s[1..], x));
      }
    }
  }

  /** The survivors of the filter appear in their original order. */
  lemma {:induction false} WithoutIsSubsequence<T>(s: seq<T>, x: T)
    ensures IsSubsequence(Without(s, x), s)
    decreases |s|
  {
    if s != [] {
      WithoutIsSubsequence(s[1..], x);
      if s[0] != x {
        var r := Without(s, x);
        assert r == [s[0]] + Without(s[1..], x);
        assert r[1..] == Without(s[1..], x);
      }
    }
  }

  /** Filtering keeps a duplicate-free list duplicate-free. */
  lemma WithoutNoDup<T>(s: seq<T>, x: T)
    requires NoDup(s)
    ensures NoDup(Without(s, x))
  {
    var r := Without(s, x);
    WithoutCounts(s, x);
    forall i, j | 0 <= i < j < |r|
      ensures r[i] != r[j]
    {
      if r[i] == r[j] {
        var y := r[i];
        assert multiset(r)[y] >= 2 by {
          var a := r[..i] + [y] + r[i + 1..j] + [y] + r[j + 1..];
          assert r == a;
          assert multiset(a) == multiset(r[..i]) + multiset([y]) + multiset(r[i + 1..j]) + multiset([y]) + multiset(r[j + 1..]);
        }
        NoDupCount(s, y);
      }
    }
  }

  /** In a duplicate-free list each element occurs at most once. */
  lemma {:induction false} NoDupCount<T>(s: seq<T>, y: T)
    requires NoDup(s)
    ensures multiset(s)[y] <= 1
  {
    if s != [] {
      assert NoDup(s[1..]) by {
        forall i, j | 0 <= i < j < |s[1..]|
          ensures s[1..][i] != s[1..][j]
        {
          assert s[1..][i] == s[i + 1] && s[1..][j] == s[j + 1];
        }
      }
      NoDupCount(s[1..], y);
      assert s == [s[0]] + s[1..];
      assert multiset(s) == multiset([s[0]]) + multiset(s[1..]);
      if s[0] == y {
        assert y !in s[1..] by {
          forall k | 0 <= k < |s[1..]|
            ensures s[1..][k] != y
          {
            assert s[1..][k] == s[k + 1];
          }
        }
      }
    }
  }
}
