/**
 What an exported bundle is evidence of: each record once, a canonical form that does
 not depend on the order of the store, and hashes that pin the records.
 */
module BundleFacts {
  import opened Order
  import opened Counting
  import opened Listing
  import opened Sorting
  import opened BundleRecords
  import opened BundleClosure
  import opened Bundle

  // Serialisation and hash lose nothing.
  ghost predicate Lossless(env: Env) {
    && (forall a, b :: env.json(a) == env.json(b) ==> a == b)
    && (forall s, t :: env.digest(s) == env.digest(t) ==> s == t)
  }

  // A record is included twice exactly when its ID was selected twice.
  lemma OnceEach(records: seq<Record>, roots: seq<Id>, ids: seq<Id>)
    requires roots <= ids && Enumerates(ids[|roots|..], ReachableIds(records, Elements(roots)) - Elements(roots))
    ensures Distinct(ids) <==> Distinct(roots)
  {
    var rest := ids[|roots|..];
    assert ids == roots + rest;
    if Distinct(ids) {
      forall i, j | 0 <= i < j < |roots| ensures roots[i] != roots[j] {
        assert ids[i] != ids[j];
      }
    }
    if Distinct(roots) {
      forall i, j | 0 <= i < j < |ids| ensures ids[i] != ids[j] {
        if i < |roots| <= j {
          assert ids[i] in roots && rest[j - |roots|] in rest;
        }
      }
    }
  }

  // A selector that matches two versions of one ID: the last version goes in twice.
  lemma TwoVersionsTwice(env: Env, v1: Record, v2: Record, included: seq<Record>, b: EvidenceBundle)
    requires v1.id == v2.id == Id("x")
    requires Holds(env, [v1, v2], Ids(Selected([v1, v2], ById, "x")), included, b)
    ensures b.rootIds == [Id("x"), Id("x")]
    ensures |b.records| >= 2 && included[..2] == [v2, v2]
  {
    BothSelected(v1, v2);
    assert |b.records| == |multiset(b.records)| == |multiset(WrapAll(env, included))| == |included|;
    LastOfTwo(v1, v2, included[0]);
    LastOfTwo(v1, v2, included[1]);
  }

  lemma {:induction false} SelectedGrows(front: seq<Record>, r: Record, prefix: Prefix, value: string)
    ensures Selected(front + [r], prefix, value)
         == Selected(front, prefix, value) + if Matches(prefix, value, r) then [r] else []
  {
    assert (front + [r])[..|front|] == front;
  }

  lemma {:induction false} BothSelected(v1: Record, v2: Record)
    requires v1.id == v2.id == Id("x")
    ensures Ids(Selected([v1, v2], ById, "x")) == [Id("x"), Id("x")]
  {
    SelectedGrows([], v1, ById, "x");
    SelectedGrows([v1], v2, ById, "x");
    assert [] + [v1] == [v1] && [v1] + [v2] == [v1, v2];
  }

  lemma LastOfTwo(v1: Record, v2: Record, r: Record)
    requires v1.id == v2.id && IsLastVersion([v1, v2], r)
    ensures r == v2
  {
    assert [v1, v2][1] == v2;
  }

  // ---------------------------------------------------------------- the canonical form

  lemma LastIsUnique(records: seq<Record>, a: Record, b: Record)
    requires IsLastVersion(records, a) && IsLastVersion(records, b) && a.id == b.id
    ensures a == b
  {
  }

  // Two stores with the same records and the same last versions.
  ghost predicate SameContent(rs1: seq<Record>, rs2: seq<Record>) {
    && (forall r :: r in rs1 <==> r in rs2)
    && (forall r :: IsLastVersion(rs1, r) <==> IsLastVersion(rs2, r))
  }

  lemma SameLinks(rs1: seq<Record>, rs2: seq<Record>, u: Id, v: Id, relation: Relation)
    requires (forall r :: r in rs1 ==> r in rs2) && LinksTo(rs1, u, v, relation)
    ensures LinksTo(rs2, u, v, relation)
  {
    var i :| 0 <= i < |rs1| && rs1[i].id == u && Link(v, relation) in LinksOf(rs1[i]);
    assert rs1[i] in rs2;
  }

  lemma SameReach(rs1: seq<Record>, rs2: seq<Record>, roots: set<Id>, v: Id)
    requires (forall r :: r in rs1 ==> r in rs2) && Reachable(rs1, roots, v)
    ensures Reachable(rs2, roots, v)
  {
    var walk :| IsWalk(rs1, roots, walk, v);
    forall i | 0 <= i < |walk| ensures HasId(rs2, walk[i]) {
      assert HasId(rs1, walk[i]);
      var k :| 0 <= k < |rs1| && rs1[k].id == walk[i];
      assert rs1[k] in rs2;
    }
    forall i | 0 <= i < |walk| - 1 ensures Connected(rs2, walk[i], walk[i + 1]) {
      assert Connected(rs1, walk[i], walk[i + 1]);
      var relation :| Adjacent(rs1, walk[i], walk[i + 1], relation);
      if LinksTo(rs1, walk[i], walk[i + 1], relation) {
        SameLinks(rs1, rs2, walk[i], walk[i + 1], relation);
      } else {
        SameLinks(rs1, rs2, walk[i + 1], walk[i], relation);
      }
      assert Adjacent(rs2, walk[i], walk[i + 1], relation);
    }
    assert IsWalk(rs2, roots, walk, v);
  }

  // The last version of an ID, if it has one.
  ghost function LastVersion(records: seq<Record>, id: Id): (r: Record)
    ensures (exists x: Record :: x.id == id && IsLastVersion(records, x)) ==> r.id == id && IsLastVersion(records, r)
  {
    if exists x: Record :: x.id == id && IsLastVersion(records, x) then
      var x: Record :| x.id == id && IsLastVersion(records, x);
      x
    else Tombstone(id, id)
  }

  // Records that are the last versions of their IDs are determined by the IDs.
  lemma WrappedById(env: Env, records: seq<Record>, a: seq<Record>)
    requires forall r :: r in a ==> IsLastVersion(records, r)
    ensures WrapAll(env, a) == Map((id: Id) => Wrap(env, LastVersion(records, id)), Ids(a))
  {
    var f := (id: Id) => Wrap(env, LastVersion(records, id));
    forall i | 0 <= i < |a| ensures WrapAll(env, a)[i] == Map(f, Ids(a))[i] {
      assert IsLastVersion(records, a[i]);
      LastIsUnique(records, a[i], LastVersion(records, a[i].id));
    }
  }

  lemma SameRecords(env: Env, records: seq<Record>, a: seq<Record>, b: seq<Record>)
    requires forall r :: r in a ==> IsLastVersion(records, r)
    requires forall r :: r in b ==> IsLastVersion(records, r)
    requires multiset(Ids(a)) == multiset(Ids(b))
    ensures multiset(WrapAll(env, a)) == multiset(WrapAll(env, b))
  {
    WrappedById(env, records, a);
    WrappedById(env, records, b);
    MapPermutation((id: Id) => Wrap(env, LastVersion(records, id)), Ids(a), Ids(b));
  }

  lemma SameElements(a: seq<Id>, b: seq<Id>)
    requires multiset(a) == multiset(b)
    ensures Elements(a) == Elements(b)
  {
    forall id ensures id in a <==> id in b {
      assert id in multiset(a) <==> id in multiset(b);
    }
  }

  lemma SameReachable(rs1: seq<Record>, rs2: seq<Record>, roots: set<Id>)
    requires forall r :: r in rs1 <==> r in rs2
    ensures ReachableIds(rs1, roots) == ReachableIds(rs2, roots)
  {
    forall v ensures Reachable(rs1, roots, v) <==> Reachable(rs2, roots, v) {
      if Reachable(rs1, roots, v) { SameReach(rs1, rs2, roots, v); }
      if Reachable(rs2, roots, v) { SameReach(rs2, rs1, roots, v); }
    }
  }

  // The closure lists the same IDs equally often.
  lemma SameIds(rs1: seq<Record>, rs2: seq<Record>, roots1: seq<Id>, roots2: seq<Id>, ids1: seq<Id>, ids2: seq<Id>)
    requires (forall r :: r in rs1 <==> r in rs2) && multiset(roots1) == multiset(roots2)
    requires roots1 <= ids1 && Enumerates(ids1[|roots1|..], ReachableIds(rs1, Elements(roots1)) - Elements(roots1))
    requires roots2 <= ids2 && Enumerates(ids2[|roots2|..], ReachableIds(rs2, Elements(roots2)) - Elements(roots2))
    ensures multiset(ids1) == multiset(ids2)
  {
    SameElements(roots1, roots2);
    SameReachable(rs1, rs2, Elements(roots1));
    EnumerationsAgree(ids1[|roots1|..], ids2[|roots2|..], ReachableIds(rs1, Elements(roots1)) - Elements(roots1));
    assert ids1 == roots1 + ids1[|roots1|..] && ids2 == roots2 + ids2[|roots2|..];
  }

  // The exported records depend on what the store holds and on the roots, not on the
  // order of either.
  lemma ExportIsCanonical(env: Env, rs1: seq<Record>, rs2: seq<Record>, roots1: seq<Id>, roots2: seq<Id>,
                          included1: seq<Record>, included2: seq<Record>, b1: EvidenceBundle, b2: EvidenceBundle)
    requires Lossless(env) && SameContent(rs1, rs2) && multiset(roots1) == multiset(roots2)
    requires Holds(env, rs1, roots1, included1, b1) && Integral(env, b1)
    requires Holds(env, rs2, roots2, included2, b2) && Integral(env, b2)
    ensures b1.records == b2.records
  {
    SameIds(rs1, rs2, roots1, roots2, Ids(included1), Ids(included2));
    SameRecords(env, rs1, included1, included2);
    PermutationsAgree(env, b1, b2);
  }

  // The canonical order leaves one arrangement only.
  lemma PermutationsAgree(env: Env, b1: EvidenceBundle, b2: EvidenceBundle)
    requires Lossless(env) && Integral(env, b1) && Integral(env, b2)
    requires multiset(b1.records) == multiset(b2.records)
    ensures b1.records == b2.records
  {
    CanonicalIsOrder(env);
    var bs := b1.records;
    forall x, y | x in bs && y in bs && Canonical(env)(x, y) && Canonical(env)(y, x) ensures x == y {
      if x.record.id == y.record.id {
        StrLeAntisymmetric(env.json(x.record), env.json(y.record));
      } else {
        StrLeAntisymmetric(x.record.id.text, y.record.id.text);
      }
      assert HashOk(env, x) && HashOk(env, y);
    }
    OrderedUnique(Canonical(env), b1.records, b2.records);
  }

  // ---------------------------------------------------------------- hashes

  // Two bundles that pass the integrity check with the same hashes hold the same records.
  lemma HashesPinRecords(env: Env, b1: EvidenceBundle, b2: EvidenceBundle)
    requires Lossless(env) && Integral(env, b1) && Integral(env, b2)
    requires |b1.records| == |b2.records|
    requires forall i :: 0 <= i < |b1.records| ==> b1.records[i].hash == b2.records[i].hash
    ensures b1.records == b2.records
  {
  }

  // Replacing the record under a hash, or dropping a record, is caught.
  lemma TamperingIsCaught(env: Env, b: EvidenceBundle, k: nat, r: Record)
    requires Lossless(env) && Integral(env, b) && k < |b.records|
    ensures r != b.records[k].record ==>
      !Integral(env, b.(records := b.records[k := b.records[k].(record := r)]))
    ensures !Integral(env, b.(records := b.records[..k] + b.records[k + 1..]))
  {
    if r != b.records[k].record {
      var t := b.(records := b.records[k := b.records[k].(record := r)]);
      assert HashOk(env, b.records[k]);
      assert !HashOk(env, t.records[k]);
    }
  }

  // What the verifier accepts.
  ghost predicate Accepted(env: Env, b: EvidenceBundle) {
    Integral(env, b) && Covered(env, b) && Safe(env, b)
  }

  ghost predicate SameHashes(b1: EvidenceBundle, b2: EvidenceBundle) {
    && |b1.records| == |b2.records|
    && forall i :: 0 <= i < |b1.records| ==> b1.records[i].hash == b2.records[i].hash
  }

  // What the hashes of an accepted bundle do not pin, exactly: counts with the same sum, any
  // list of IDs of its records as the roots, and any list of unresolved links.
  lemma UnpinnedExactly(env: Env, b: EvidenceBundle, t: EvidenceBundle)
    requires Lossless(env) && Accepted(env, b) && SameHashes(b, t)
    ensures Accepted(env, t) <==>
      && t.records == b.records && SumOf(t.counts) == SumOf(b.counts)
      && forall id :: id in t.rootIds ==> HasId(Records(b.records), id)
  {
    if Accepted(env, t) { HashesPinRecords(env, b, t); }
  }
}
