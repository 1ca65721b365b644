// Maps built by merging keyed values with a join: the order and the repetition of the
// values do not matter.
module Merging {

  ghost predicate IsJoin<V(!new)>(join: (V, V) -> V) {
    && (forall x, y :: join(x, y) == join(y, x))
    && (forall x, y, z :: join(join(x, y), z) == join(x, join(y, z)))
    && (forall x :: join(x, x) == x)
  }

  // `entry(k).and_modify(|v| v = join(v, new)).or_insert(new)`.
  function Put<K, V>(join: (V, V) -> V, m: map<K, V>, hit: (K, V)): map<K, V> {
    m[hit.0 := if hit.0 in m then join(m[hit.0], hit.1) else hit.1]
  }

  function Merge<K, V>(join: (V, V) -> V, hits: seq<(K, V)>): map<K, V> {
    if hits == [] then map[] else Put(join, Merge(join, hits[..|hits| - 1]), hits[|hits| - 1])
  }

  lemma PutCommutes<K, V(!new)>(join: (V, V) -> V, m: map<K, V>, g: (K, V), h: (K, V))
    requires IsJoin(join)
    ensures Put(join, Put(join, m, g), h) == Put(join, Put(join, m, h), g)
  {
  }

  lemma PutTwice<K, V(!new)>(join: (V, V) -> V, m: map<K, V>, h: (K, V))
    requires IsJoin(join)
    ensures Put(join, Put(join, m, h), h) == Put(join, m, h)
  {
  }

  lemma {:induction false} PutAgain<K, V(!new)>(join: (V, V) -> V, hits: seq<(K, V)>, h: (K, V))
    requires IsJoin(join) && h in hits
    ensures Put(join, Merge(join, hits), h) == Merge(join, hits)
  {
    var front, last := hits[..|hits| - 1], hits[|hits| - 1];
    assert hits == front + [last];
    if h == last {
      PutTwice(join, Merge(join, front), h);
    } else {
      PutAgain(join, front, h);
      PutCommutes(join, Merge(join, front), last, h);
    }
  }

  lemma {:induction false} MergeMore<K, V(!new)>(join: (V, V) -> V, a: seq<(K, V)>, b: seq<(K, V)>)
    requires IsJoin(join) && forall h :: h in b ==> h in a
    ensures Merge(join, a + b) == Merge(join, a)
  {
    if b == [] {
      assert a + b == a;
    } else {
      var front, last := b[..|b| - 1], b[|b| - 1];
      assert (a + b)[..|a + b| - 1] == a + front;
      MergeMore(join, a, front);
      PutAgain(join, a, last);
    }
  }

  lemma {:induction false} MergeSwaps<K, V(!new)>(join: (V, V) -> V, a: seq<(K, V)>, b: seq<(K, V)>)
    requires IsJoin(join)
    ensures Merge(join, a + b) == Merge(join, b + a)
  {
    if b == [] {
      assert a + b == a && b + a == a;
    } else {
      var front, last := b[..|b| - 1], b[|b| - 1];
      assert (a + b)[..|a + b| - 1] == a + front;
      MergeSwaps(join, a, front);
      MergeMiddle(join, front, last, a);
      assert b + a == front + [last] + a;
    }
  }

  lemma {:induction false} MergeMiddle<K, V(!new)>(join: (V, V) -> V, a: seq<(K, V)>, h: (K, V), b: seq<(K, V)>)
    requires IsJoin(join)
    ensures Merge(join, a + [h] + b) == Put(join, Merge(join, a + b), h)
  {
    if b == [] {
      assert a + [h] + b == a + [h] && a + b == a;
      MergeLast(join, a, h);
    } else {
      var front, last := b[..|b| - 1], b[|b| - 1];
      assert a + [h] + b == (a + [h] + front) + [last];
      assert a + b == (a + front) + [last];
      MergeMiddle(join, a, h, front);
      MergeLast(join, a + [h] + front, last);
      MergeLast(join, a + front, last);
      PutCommutes(join, Merge(join, a + front), h, last);
    }
  }

  lemma MergeLast<K, V>(join: (V, V) -> V, s: seq<(K, V)>, x: (K, V))
    ensures Merge(join, s + [x]) == Put(join, Merge(join, s), x)
  {
  }

  // Only the set of values counts.
  lemma MergeDependsOnSet<K, V(!new)>(join: (V, V) -> V, a: seq<(K, V)>, b: seq<(K, V)>)
    requires IsJoin(join) && forall h :: h in a <==> h in b
    ensures Merge(join, a) == Merge(join, b)
  {
    MergeMore(join, a, b);
    MergeMore(join, b, a);
    MergeSwaps(join, a, b);
  }
}
