// `slice::sort_by`, as far as its callers rely on it: the same elements, with
// every two neighbours in order.
module Sorting {

  ghost predicate Total<T(!new)>(le: (T, T) -> bool) {
    forall a, b :: le(a, b) || le(b, a)
  }

  ghost predicate NeighboursOrdered<T>(le: (T, T) -> bool, s: seq<T>) {
    forall i :: 0 <= i < |s| - 1 ==> le(s[i], s[i + 1])
  }

  function Insert<T(!new)>(le: (T, T) -> bool, x: T, s: seq<T>): (r: seq<T>)
    requires Total(le) && NeighboursOrdered(le, s)
    ensures NeighboursOrdered(le, r)
    ensures multiset(r) == multiset(s) + multiset{x}
    ensures r[0] == x || (s != [] && r[0] == s[0])
  {
    if s == [] || le(x, s[0]) then [x] + s
    else
      assert s == [s[0]] + s[1..];
      [s[0]] + Insert(le, x, s[1..])
  }

  function Sort<T(!new)>(le: (T, T) -> bool, s: seq<T>): (r: seq<T>)
    requires Total(le)
    ensures NeighboursOrdered(le, r)
    ensures multiset(r) == multiset(s)
    ensures |r| == |s|
  {
    if s == [] then []
    else
      assert s == [s[0]] + s[1..];
      var r := Insert(le, s[0], Sort(le, s[1..]));
      assert |multiset(r)| == |r| && |multiset(s)| == |s|;
      r
  }

  ghost predicate Transitive<T(!new)>(le: (T, T) -> bool) {
    forall a, b, c :: le(a, b) && le(b, c) ==> le(a, c)
  }

  ghost predicate AntisymmetricOn<T>(le: (T, T) -> bool, s: seq<T>) {
    forall a, b :: a in s && b in s && le(a, b) && le(b, a) ==> a == b
  }

  lemma {:induction false} FirstIsLeast<T(!new)>(le: (T, T) -> bool, s: seq<T>, x: T)
    requires Total(le) && Transitive(le) && NeighboursOrdered(le, s) && x in s
    ensures le(s[0], x)
  {
    if x != s[0] {
      assert s == [s[0]] + s[1..];
      FirstIsLeast(le, s[1..], x);
      assert le(s[0], s[1]);
    } else {
      assert le(x, x);
    }
  }

  lemma FirstsTie<T(!new)>(le: (T, T) -> bool, a: seq<T>, b: seq<T>)
    requires Total(le) && Transitive(le) && a != []
    requires NeighboursOrdered(le, a) && NeighboursOrdered(le, b) && multiset(a) == multiset(b)
    ensures b != [] && a[0] in b && b[0] in a && le(a[0], b[0]) && le(b[0], a[0])
  {
    assert a[0] in multiset(b);
    assert b[0] in multiset(a);
    FirstIsLeast(le, a, b[0]);
    FirstIsLeast(le, b, a[0]);
  }

  lemma TailsAgree<T>(a: seq<T>, b: seq<T>)
    requires a != [] && b != [] && a[0] == b[0] && multiset(a) == multiset(b)
    ensures multiset(a[1..]) == multiset(b[1..])
  {
    assert a == [a[0]] + a[1..] && b == [b[0]] + b[1..];
    assert multiset(a[1..]) == multiset(a) - multiset{a[0]};
    assert multiset(b[1..]) == multiset(b) - multiset{b[0]};
  }

  lemma NoneLeft<T>(b: seq<T>)
    requires multiset(b) == multiset{}
    ensures b == []
  {
    assert |b| == |multiset(b)|;
  }

  // Two orderly arrangements of the same elements are the same list.
  lemma {:induction false} OrderedUnique<T(!new)>(le: (T, T) -> bool, a: seq<T>, b: seq<T>)
    requires Total(le) && Transitive(le) && AntisymmetricOn(le, a)
    requires NeighboursOrdered(le, a) && NeighboursOrdered(le, b) && multiset(a) == multiset(b)
    ensures a == b
  {
    if a == [] {
      NoneLeft(b);
    } else {
      FirstsTie(le, a, b);
      TailsAgree(a, b);
      OrderedUnique(le, a[1..], b[1..]);
      assert a == [a[0]] + a[1..] && b == [b[0]] + b[1..];
    }
  }

  // The elements that are neither before nor after `x`, in their order.
  function Ties<T>(le: (T, T) -> bool, x: T, s: seq<T>): seq<T> {
    if s == [] then [] else (if le(x, s[0]) && le(s[0], x) then [s[0]] else []) + Ties(le, x, s[1..])
  }

  lemma {:induction false} InsertTies<T(!new)>(le: (T, T) -> bool, x: T, y: T, s: seq<T>)
    requires Total(le) && Transitive(le) && NeighboursOrdered(le, s)
    ensures Ties(le, x, Insert(le, y, s)) == Ties(le, x, [y] + s)
  {
    if s != [] && !le(y, s[0]) {
      var rest := s[1..];
      InsertTies(le, x, y, rest);
      assert ([y] + rest)[1..] == rest && ([y] + s)[1..] == s;
      assert ([s[0]] + Insert(le, y, rest))[1..] == Insert(le, y, rest);
    }
  }

  // The sort is stable: ties keep their order.
  lemma {:induction false} SortTies<T(!new)>(le: (T, T) -> bool, x: T, s: seq<T>)
    requires Total(le) && Transitive(le)
    ensures Ties(le, x, Sort(le, s)) == Ties(le, x, s)
  {
    if s != [] {
      SortTies(le, x, s[1..]);
      InsertTies(le, x, s[0], Sort(le, s[1..]));
      assert ([s[0]] + Sort(le, s[1..]))[1..] == Sort(le, s[1..]);
    }
  }

  // A stable arrangement is the only one.
  lemma {:induction false} StableUnique<T(!new)>(le: (T, T) -> bool, a: seq<T>, b: seq<T>)
    requires Total(le) && Transitive(le)
    requires NeighboursOrdered(le, a) && NeighboursOrdered(le, b) && multiset(a) == multiset(b)
    requires forall x :: Ties(le, x, a) == Ties(le, x, b)
    ensures a == b
  {
    if a == [] {
      NoneLeft(b);
    } else {
      FirstsTie(le, a, b);
      FirstOfTies(le, a[0], a);
      FirstOfTies(le, a[0], b);
      TailsAgree(a, b);
      forall x ensures Ties(le, x, a[1..]) == Ties(le, x, b[1..]) {
        SameTiesRest(le, x, a, b);
      }
      StableUnique(le, a[1..], b[1..]);
      assert a == [a[0]] + a[1..] && b == [b[0]] + b[1..];
    }
  }

  lemma FirstOfTies<T(!new)>(le: (T, T) -> bool, x: T, s: seq<T>)
    requires Total(le) && s != [] && le(x, s[0]) && le(s[0], x)
    ensures Ties(le, x, s) != [] && Ties(le, x, s)[0] == s[0]
  {
  }

  lemma SameTiesRest<T>(le: (T, T) -> bool, x: T, a: seq<T>, b: seq<T>)
    requires a != [] && b != [] && a[0] == b[0] && Ties(le, x, a) == Ties(le, x, b)
    ensures Ties(le, x, a[1..]) == Ties(le, x, b[1..])
  {
    var front := if le(x, a[0]) && le(a[0], x) then [a[0]] else [];
    assert Ties(le, x, a)[|front|..] == Ties(le, x, a[1..]);
    assert Ties(le, x, b)[|front|..] == Ties(le, x, b[1..]);
  }
}
