/** Sums over sequences, which do not depend on the order of the elements. */
module Sums {
  function SumBy<T>(s: seq<T>, f: T -> real): real {
    if s == [] then 0.0 else SumBy(s[..|s| - 1], f) + f(s[|s| - 1])
  }

  function Sum(s: seq<real>): real {
    SumBy(s, x => x)
  }

  lemma {:induction false} SumByAppend<T>(a: seq<T>, b: seq<T>, f: T -> real)
    ensures SumBy(a + b, f) == SumBy(a, f) + SumBy(b, f)
  {
    if b == [] {
      assert a + b == a;
    } else {
      SumByAppend(a, b[..|b| - 1], f);
      assert (a + b)[..|a + b| - 1] == a + b[..|b| - 1];
    }
  }

  lemma SumByOne<T>(x: T, f: T -> real)
    ensures SumBy([x], f) == f(x)
  {
    assert [x][..0] == [];
  }

  lemma SumByTwo<T>(x: T, y: T, f: T -> real)
    ensures SumBy([x, y], f) == f(x) + f(y)
  {
    SumByOne(x, f);
    assert [x, y][..1] == [x];
  }

  lemma SumByThree<T>(x: T, y: T, z: T, f: T -> real)
    ensures SumBy([x, y, z], f) == f(x) + f(y) + f(z)
  {
    SumByTwo(x, y, f);
    assert [x, y, z][..2] == [x, y];
  }

  function Without<T>(s: seq<T>, i: nat): seq<T>
    requires i < |s|
  {
    s[..i] + s[i + 1..]
  }

  lemma SplitAt<T>(s: seq<T>, i: nat)
    requires i < |s|
    ensures s == s[..i] + [s[i]] + s[i + 1..]
  {
  }

  lemma SumByWithout<T>(s: seq<T>, i: nat, f: T -> real)
    requires i < |s|
    ensures SumBy(s, f) == SumBy(Without(s, i), f) + f(s[i])
  {
    var l, x, r := s[..i], s[i], s[i + 1..];
    SplitAt(s, i);
    SumByAppend(l + [x], r, f);
    SumByAppend(l, [x], f);
    SumByAppend(l, r, f);
    SumByOne(x, f);
  }

  lemma MultisetWithout<T>(s: seq<T>, i: nat)
    requires i < |s|
    ensures multiset(Without(s, i)) == multiset(s) - multiset{s[i]}
  {
    SplitAt(s, i);
  }

  // The last element of one arrangement has a place in the other, and the rests are arrangements too.
  lemma MatchLast<T>(a: seq<T>, b: seq<T>) returns (i: nat)
    requires multiset(a) == multiset(b) && a != []
    ensures i < |b| && b[i] == a[|a| - 1] && multiset(a[..|a| - 1]) == multiset(Without(b, i))
  {
    var x := a[|a| - 1];
    assert x in multiset(b);
    i :| 0 <= i < |b| && b[i] == x;
    MultisetWithout(b, i);
    assert a == a[..|a| - 1] + [x];
  }

  lemma {:induction false} SumByPermutation<T>(a: seq<T>, b: seq<T>, f: T -> real)
    requires multiset(a) == multiset(b)
    ensures SumBy(a, f) == SumBy(b, f)
  {
    hide Without;
    SameLength(a, b);
    if a == [] {
    } else {
      var i := MatchLast(a, b);
      SumByPermutation(a[..|a| - 1], Without(b, i), f);
      SumByWithout(b, i, f);
    }
  }

  lemma SameLength<T>(a: seq<T>, b: seq<T>)
    requires multiset(a) == multiset(b)
    ensures |a| == |b|
  {
    assert |multiset(a)| == |a| && |multiset(b)| == |b|;
  }
}
