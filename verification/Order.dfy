// The order Rust gives to `str` (code-point lexicographic), and the ascending
// listing in which a `BTreeSet<&str>` or the keys of a `BTreeMap` are visited.
module Order {

  predicate StrLe(a: string, b: string) {
    if a == [] then true
    else if b == [] then false
    else if a[0] != b[0] then a[0] < b[0]
    else StrLe(a[1..], b[1..])
  }

  lemma StrLeTotal(a: string, b: string)
    ensures StrLe(a, b) || StrLe(b, a)
  {
  }

  lemma StrLeAntisymmetric(a: string, b: string)
    requires StrLe(a, b) && StrLe(b, a)
    ensures a == b
  {
  }

  lemma StrLeTransitive(a: string, b: string, c: string)
    requires StrLe(a, b) && StrLe(b, c)
    ensures StrLe(a, c)
  {
  }

  predicate IsLeast(m: string, s: set<string>) {
    m in s && forall x :: x in s ==> StrLe(m, x)
  }

  lemma LeastUnique(s: set<string>)
    ensures forall a, b :: IsLeast(a, s) && IsLeast(b, s) ==> a == b
  {
    forall a, b | IsLeast(a, s) && IsLeast(b, s) ensures a == b {
      StrLeAntisymmetric(a, b);
    }
  }

  lemma LeastExists(s: set<string>)
    requires s != {}
    ensures exists m :: IsLeast(m, s)
  {
    var x :| x in s;
    if s == {x} {
      StrLeTotal(x, x);
      assert IsLeast(x, s);
    } else {
      LeastExists(s - {x});
      var m :| IsLeast(m, s - {x});
      StrLeTotal(x, m);
      if StrLe(m, x) {
        assert IsLeast(m, s);
      } else {
        forall y | y in s ensures StrLe(x, y) {
          if y == x { StrLeTotal(x, x); } else { StrLeTransitive(x, m, y); }
        }
        assert IsLeast(x, s);
      }
    }
  }

  ghost predicate Ascends(r: seq<string>) {
    forall i, j :: 0 <= i < j < |r| ==> StrLe(r[i], r[j]) && r[i] != r[j]
  }

  // `r` is the visiting order of the ordered set `s`.
  ghost predicate Lists(r: seq<string>, s: set<string>) {
    && (forall x :: x in r <==> x in s)
    && Ascends(r)
  }

  function Ascending(s: set<string>): (r: seq<string>)
    ensures Lists(r, s)
  {
    if s == {} then []
    else
      LeastExists(s);
      LeastUnique(s);
      var m :| m in s && IsLeast(m, s);
      LeastFirst(m, Ascending(s - {m}), s);
      [m] + Ascending(s - {m})
  }

  lemma LeastFirst(m: string, rest: seq<string>, s: set<string>)
    requires IsLeast(m, s) && Lists(rest, s - {m})
    ensures Lists([m] + rest, s)
  {
    assert forall i :: 0 <= i < |rest| ==> rest[i] in rest;
  }
}
