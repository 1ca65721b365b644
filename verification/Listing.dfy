// Lists without repetitions, and lists that are permutations of each other.
module Listing {

  ghost predicate Distinct<T>(s: seq<T>) {
    forall i, j :: 0 <= i < j < |s| ==> s[i] != s[j]
  }

  // `s` lists every element of `all` exactly once.
  ghost predicate Enumerates<T(!new)>(s: seq<T>, all: set<T>) {
    Distinct(s) && forall v :: v in s <==> v in all
  }

  lemma DistinctCount<T>(s: seq<T>, x: T)
    requires Distinct(s)
    ensures multiset(s)[x] == if x in s then 1 else 0
  {
    if s != [] {
      var front, last := s[..|s| - 1], s[|s| - 1];
      assert s == front + [last];
      DistinctCount(front, x);
      assert last !in front;
    }
  }

  lemma EnumerationsAgree<T(!new)>(a: seq<T>, b: seq<T>, all: set<T>)
    requires Enumerates(a, all) && Enumerates(b, all)
    ensures multiset(a) == multiset(b)
  {
    forall x ensures multiset(a)[x] == multiset(b)[x] {
      DistinctCount(a, x);
      DistinctCount(b, x);
      assert x in a <==> x in b;
    }
  }

  ghost function Map<S, T>(f: S -> T, s: seq<S>): (r: seq<T>)
    ensures |r| == |s| && forall i :: 0 <= i < |s| ==> r[i] == f(s[i])
  {
    seq(|s|, i requires 0 <= i < |s| => f(s[i]))
  }

  ghost function Without<T>(s: seq<T>, k: nat): seq<T>
    requires k < |s|
  {
    s[..k] + s[k + 1..]
  }

  lemma TakeOut<T>(s: seq<T>, k: nat)
    requires k < |s|
    ensures multiset(s) == multiset(Without(s, k)) + multiset{s[k]}
  {
    assert s == s[..k] + [s[k]] + s[k + 1..];
  }

  lemma MapTakeOut<S, T>(f: S -> T, s: seq<S>, k: nat)
    requires k < |s|
    ensures multiset(Map(f, s)) == multiset(Map(f, Without(s, k))) + multiset{f(s[k])}
  {
    assert Map(f, Without(s, k)) == Without(Map(f, s), k);
    TakeOut(Map(f, s), k);
  }

  lemma SameRest<T>(a: seq<T>, b: seq<T>, j: nat, k: nat)
    requires multiset(a) == multiset(b) && j < |a| && k < |b| && a[j] == b[k]
    ensures multiset(Without(a, j)) == multiset(Without(b, k))
  {
    TakeOut(a, j);
    TakeOut(b, k);
    var m := multiset{a[j]};
    assert multiset(Without(a, j)) == multiset(a) - m;
    assert multiset(Without(b, k)) == multiset(b) - m;
  }

  lemma MapPermutation<S, T>(f: S -> T, a: seq<S>, b: seq<S>)
    requires multiset(a) == multiset(b)
    ensures multiset(Map(f, a)) == multiset(Map(f, b))
    decreases |a|
  {
    if a == [] {
      assert |b| == |multiset(b)| == |multiset(a)| == 0;
    } else {
      assert a[0] in multiset(b);
      var k :| 0 <= k < |b| && b[k] == a[0];
      SameRest(a, b, 0, k);
      MapPermutation(f, Without(a, 0), Without(b, k));
      MapTakeOut(f, a, 0);
      MapTakeOut(f, b, k);
    }
  }
}
