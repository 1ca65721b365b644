// Sizes of sets and maps, for the models that count.
module Counting {

  ghost predicate OneToOne<K, V>(m: map<K, V>) {
    forall a, b :: a in m && b in m && m[a] == m[b] ==> a == b
  }

  lemma ImageSize<K, V>(m: map<K, V>, s: set<K>)
    requires OneToOne(m) && s <= m.Keys
    ensures |set k | k in s :: m[k]| == |s|
  {
    if s != {} {
      var k :| k in s;
      ImageSize(m, s - {k});
      assert (set x | x in s :: m[x]) == (set x | x in s - {k} :: m[x]) + {m[k]};
    }
  }

  lemma SubsetSize<T>(a: set<T>, b: set<T>)
    requires a <= b
    ensures |a| <= |b|
  {
    if a != {} {
      var x :| x in a;
      SubsetSize(a - {x}, b - {x});
    }
  }

  lemma ValuesSize<K, V>(m: map<K, V>)
    requires OneToOne(m)
    ensures |m.Values| == |m.Keys|
  {
    ImageSize(m, m.Keys);
    assert m.Values == set k | k in m.Keys :: m[k];
  }

  ghost function Below(n: nat): (s: set<nat>)
    ensures forall e: nat :: e in s <==> e < n
    ensures |s| == n
  {
    if n == 0 then {} else Below(n - 1) + {n - 1}
  }

  lemma SameSize<T>(part: set<T>, s: set<T>)
    requires part <= s && |part| >= |s|
    ensures part == s
  {
    SplitSize(s, part);
  }

  // A one-to-one map between sets of one size that leaves no pair free uses all of both.
  lemma MaximalFills(m: map<nat, nat>, keys: set<nat>, values: set<nat>)
    requires OneToOne(m) && m.Keys <= keys && m.Values <= values && |keys| == |values|
    requires forall a, e :: a in keys && e in values ==> a in m || e in m.Values
    ensures m.Keys == keys && m.Values == values
  {
    ValuesSize(m);
    if values <= m.Values {
      assert m.Values == values;
      SameSize(m.Keys, keys);
    } else {
      var e :| e in values && e !in m.Values;
      assert m.Keys == keys;
      SameSize(m.Values, values);
    }
  }

  // A one-to-one map with keys below `n` that misses no value below `n` misses no key.
  lemma AllPaired(m: map<nat, nat>, n: nat)
    requires OneToOne(m) && m.Keys <= Below(n) <= m.Values
    ensures m.Keys == Below(n)
  {
    ValuesSize(m);
    SubsetSize(Below(n), m.Values);
    SameSize(m.Keys, Below(n));
  }

  // A one-to-one map of `s` onto `t`.
  lemma BijectionSize<K, V>(m: map<K, V>, s: set<K>, t: set<V>)
    requires OneToOne(m) && m.Keys == s
    requires forall k :: k in m ==> m[k] in t
    requires forall v :: v in t ==> exists k :: k in m && m[k] == v
    ensures |s| == |t|
  {
    assert m.Values == t;
    ValuesSize(m);
  }

  ghost function KeyOf<K, V>(m: map<K, V>, v: V): (k: K)
    requires v in m.Values
    ensures k in m && m[k] == v
  {
    var k :| k in m && m[k] == v;
    k
  }

  // A one-to-one map sends `s` into `t` only if `t` is at least as large.
  lemma InjectionSize<K, V>(m: map<K, V>, s: set<K>, t: set<V>)
    requires OneToOne(m) && s <= m.Keys
    requires forall k :: k in s ==> m[k] in t
    ensures |s| <= |t|
  {
    ImageSize(m, s);
    SubsetSize(set k | k in s :: m[k], t);
  }

  lemma NewPair<K, V>(m: map<K, V>, k: K, v: V)
    requires k !in m
    ensures m[k := v].Keys == m.Keys + {k}
    ensures m[k := v].Values == m.Values + {v}
  {
  }

  // A one-to-one map is no larger than two sets that cover each of its pairs.
  lemma CoveredSize<K, V>(m: map<K, V>, keys: set<K>, values: set<V>)
    requires OneToOne(m)
    requires forall k :: k in m ==> k in keys || m[k] in values
    ensures |m| <= |keys| + |values|
  {
    var left := m.Keys * keys;
    SubsetSize(left, keys);
    InjectionSize(m, m.Keys - left, values);
    SplitSize(m.Keys, left);
  }

  lemma SplitSize<T>(s: set<T>, part: set<T>)
    requires part <= s
    ensures |s| == |part| + |s - part|
  {
  }

  // If a one-to-one pairing joins members of a class only with members of the
  // class, as many are paired on one side as on the other.
  lemma PairedAgree(pairs: map<nat, nat>, left: set<nat>, right: set<nat>)
    requires OneToOne(pairs)
    requires forall j :: j in pairs ==> (j in left <==> pairs[j] in right)
    ensures |left * pairs.Keys| == |right * pairs.Values|
  {
    var m := map j | j in left * pairs.Keys :: pairs[j];
    assert OneToOne(m) by {
      forall i, j | i in m && j in m && m[i] == m[j] ensures i == j {
        assert pairs[i] == pairs[j];
      }
    }
    forall e | e in right * pairs.Values ensures exists j :: j in m && m[j] == e {
      var j :| j in pairs && pairs[j] == e;
      assert j in m;
    }
    BijectionSize(m, left * pairs.Keys, right * pairs.Values);
  }

  // The sum of the values of a map, in any order.
  ghost function SumOf<K>(m: map<K, nat>): nat {
    if m == map[] then 0 else
      var k :| k in m;
      m[k] + SumOf(m - {k})
  }

  lemma SumTakesOut<K>(m: map<K, nat>, k: K)
    requires k in m
    ensures SumOf(m) == m[k] + SumOf(m - {k})
    decreases |m|
  {
    var j :| j in m && SumOf(m) == m[j] + SumOf(m - {j});
    if j != k {
      SumTakesOut(m - {j}, k);
      SumTakesOut(m - {k}, j);
      assert m - {j} - {k} == m - {k} - {j};
    }
  }

  lemma SumPuts<K>(m: map<K, nat>, k: K, n: nat)
    ensures SumOf(m[k := n]) == SumOf(m) - (if k in m then m[k] else 0) + n
  {
    SumTakesOut(m[k := n], k);
    assert m[k := n] - {k} == m - {k};
    if k in m { SumTakesOut(m, k); } else { assert m - {k} == m; }
  }
}
