/**
 What a census row means: exactly when a criterion is proven, how evidence combines,
 and what the order of the records can and cannot change (src/criteria_coverage.rs).
 */
module CriteriaFacts {
  import opened Wrappers
  import opened Liveness
  import opened CriteriaCoverage

  // ---------------------------------------------------------------- the bucket lattice

  function Rank(b: Bucket): nat {
    match b
    case FailedEvidence => 5
    case DanglingEvidence => 4
    case NonVerificationEvidence => 3
    case InconclusiveEvidence => 2
    case Proven => 1
    case Unverified => 0
  }

  function Join(a: Bucket, b: Bucket): Bucket {
    if Rank(a) >= Rank(b) then a else b
  }

  // Evidence put together is judged by the worse of the two parts, so that a passing
  // link never masks another.
  lemma BucketIsJoin(a: seq<Resolution>, b: seq<Resolution>)
    ensures BucketFor(a + b) == Join(BucketFor(a), BucketFor(b))
  {
  }

  // ---------------------------------------------------------------- one handle

  // A version that can be part of a proof.
  predicate Proves(v: Record) {
    IsClosureTargetKind(v) && HasEvidenceHandle(v) && VerificationOutcome(v) == PassingOutcome
  }

  // Two versions that disagree, or one that does not pass, and the handle proves nothing.
  lemma PassingExactly(criterion: Id, versions: seq<Record>)
    ensures ResolveHandle(criterion, versions) == Passing <==>
      && versions != [] && IsVerificationDomainId(versions[0].id)
      && forall v :: v in versions ==> v.id != criterion && Proves(v)
  {
    if versions != [] {
      var outcomes := set v | v in versions :: VerificationOutcome(v);
      assert versions[0] in versions && versions[|versions| - 1] in versions;
      assert VerificationOutcome(versions[0]) in outcomes;
      if forall v :: v in versions ==> Proves(v) {
        assert outcomes == {PassingOutcome};
      } else if |outcomes| <= 1 {
        forall v | v in versions ensures VerificationOutcome(v) == VerificationOutcome(versions[0]) {
          OneElement(outcomes, VerificationOutcome(v), VerificationOutcome(versions[0]));
        }
      }
    }
  }

  lemma OneElement(s: set<Outcome>, x: Outcome, y: Outcome)
    requires x in s && y in s && |s| <= 1
    ensures x == y
  {
    assert |s - {x}| == 0;
  }

  // ---------------------------------------------------------------- one row

  lemma GivesProven(resolve: Id -> Resolution, handles: set<Id>, bucket: Bucket)
    requires Gives(resolve, handles, bucket)
    ensures bucket == Proven <==> handles != {} && forall h :: h in handles ==> resolve(h) == Passing
  {
  }

  // Proven: something closes it, and everything that closes it is a live verification
  // record that cites evidence, passes in every live version, and is not itself.
  lemma ProvenExactly(records: seq<Record>, row: Row)
    requires IsRowOf(records, row)
    ensures row.bucket == Proven <==>
      && Handles(records, row.id) != {}
      && forall h :: h in Handles(records, row.id) ==>
           && Versions(records, h) != [] && IsVerificationDomainId(h) && h != row.id
           && forall v :: v in Versions(records, h) ==> Proves(v)
  {
    GivesProven(Resolver(records, row.id), Handles(records, row.id), row.bucket);
    forall h ensures Resolver(records, row.id)(h) == Passing <==>
        && Versions(records, h) != [] && IsVerificationDomainId(h) && h != row.id
        && forall v :: v in Versions(records, h) ==> Proves(v)
    {
      PassingExactly(row.id, Versions(records, h));
      var vs := Versions(records, h);
      if vs != [] { assert vs[0] in vs; }
    }
  }

  // The most alarming handle decides.
  lemma GivesOne(resolve: Id -> Resolution, handles: set<Id>, b1: Bucket, b2: Bucket)
    requires Gives(resolve, handles, b1) && Gives(resolve, handles, b2)
    ensures b1 == b2
  {
  }

  // The buckets partition the criteria.
  lemma BucketsPartition(rows: map<Id, Row>)
    ensures |rows| == |InBucket(rows, Proven)| + |InBucket(rows, FailedEvidence)| + |InBucket(rows, DanglingEvidence)|
      + |InBucket(rows, NonVerificationEvidence)| + |InBucket(rows, InconclusiveEvidence)| + |InBucket(rows, Unverified)|
  {
    if rows == map[] {
      assert forall b :: InBucket(rows, b) == {};
    } else {
      var id :| id in rows;
      var rest := rows - {id};
      BucketsPartition(rest);
      assert rest[id := rows[id]] == rows;
      forall b ensures |InBucket(rows, b)| == |InBucket(rest, b)| + if rows[id].bucket == b then 1 else 0 {
        BucketOneMore(rest, id, rows[id], b);
      }
    }
  }

  // ---------------------------------------------------------------- the order of the records

  // Criterion and edge IDs are written once, tombstones after their targets.
  ghost predicate Orderly(records: seq<Record>) {
    forall i, j :: 0 <= i < |records| && 0 <= j < |records| && i != j ==> MayFollow(records[i], records[j], i < j)
  }

  // What two records at different places may be; `before` says the first comes first.
  predicate MayFollow(r: Record, q: Record, before: bool) {
    && (r.Tombstone? && IsWriteOf(WriteOf(q), r.deletedId) ==> !before)
    && (r.Edge? && q.Edge? ==> r.id != q.id)
    && (r.Node? && q.Node? && r.id == q.id ==> r.kind != AcceptanceCriterion)
  }

  ghost predicate SameRecords(a: seq<Record>, b: seq<Record>) {
    forall r :: r in a <==> r in b
  }

  ghost predicate HasTombstone(records: seq<Record>, id: Id) {
    exists r :: r in records && r.Tombstone? && r.deletedId == id
  }

  ghost predicate HasHistory(records: seq<Record>, id: Id) {
    exists r :: r in records && !r.Tombstone? && r.id == id && r.temporal
  }

  // In orderly records an ID is deleted when it has a tombstone and no history.
  lemma OrderlyDeleted(records: seq<Record>, id: Id)
    requires Orderly(records)
    ensures Deleted(Writes(records), id) <==> HasTombstone(records, id) && !HasHistory(records, id)
  {
  }

  lemma SameDeleted(a: seq<Record>, b: seq<Record>, id: Id)
    requires Orderly(a) && Orderly(b) && SameRecords(a, b)
    ensures Deleted(Writes(a), id) <==> Deleted(Writes(b), id)
  {
    OrderlyDeleted(a, id);
    OrderlyDeleted(b, id);
  }

  lemma SameVersions(a: seq<Record>, b: seq<Record>, id: Id)
    requires Orderly(a) && Orderly(b) && SameRecords(a, b)
    ensures SameRecords(Versions(a, id), Versions(b, id))
  {
    SameDeleted(a, b, id);
  }

  lemma SameTargets(a: seq<Record>, b: seq<Record>, label_: Label, source: Id)
    requires Orderly(a) && Orderly(b) && SameRecords(a, b)
    ensures TargetsOf(a, label_, source) <= TargetsOf(b, label_, source)
  {
    forall t | t in TargetsOf(a, label_, source) ensures t in TargetsOf(b, label_, source) {
      var i :| 0 <= i < |a| && IsCurrentEdge(a, i) && a[i].label_ == label_ && a[i].source == source && a[i].target == t;
      assert a[i] in b;
      var j :| 0 <= j < |b| && b[j] == a[i];
      SameDeleted(a, b, a[i].id);
      OnlyVersion(b, j);
      assert IsCurrentEdge(b, j) && b[j].target == t;
    }
  }

  lemma OnlyVersion(b: seq<Record>, j: nat)
    requires Orderly(b) && j < |b| && b[j].Edge?
    ensures IsLatestEdgeVersion(Writes(b), j)
  {
  }

  lemma SameHandleResolution(criterion: Id, a: seq<Record>, b: seq<Record>, id: Id)
    requires SameRecords(a, b) && forall v :: v in a ==> v.Node? && v.id == id
    ensures ResolveHandle(criterion, a) == ResolveHandle(criterion, b)
  {
    assert a == [] <==> b == [] by {
      assert a != [] ==> a[0] in b;
      assert b != [] ==> b[0] in a;
    }
    if a != [] {
      assert a[0] in b && b != [] && b[0] in a && a[|a| - 1] in a && b[|b| - 1] in a;
      var oa, ob := set v | v in a :: VerificationOutcome(v), set v | v in b :: VerificationOutcome(v);
      assert oa == ob;
      assert VerificationOutcome(a[0]) in oa && VerificationOutcome(b[0]) in oa;
      if |oa| <= 1 { OneElement(oa, VerificationOutcome(a[0]), VerificationOutcome(b[0])); }
    }
  }

  lemma SameDone(a: seq<Record>, b: seq<Record>)
    requires SameRecords(a, b) && HasDoneVersion(a)
    ensures HasDoneVersion(b)
  {
  }

  // A criterion's only version is the same in every order.
  lemma SameCriterion(a: seq<Record>, b: seq<Record>, id: Id)
    requires Orderly(a) && Orderly(b) && SameRecords(a, b) && IsCriterion(Versions(a, id))
    ensures IsCriterion(Versions(b, id))
    ensures Versions(a, id)[|Versions(a, id)| - 1] == Versions(b, id)[|Versions(b, id)| - 1]
  {
    var va, vb := Versions(a, id), Versions(b, id);
    var c := va[|va| - 1];
    SameVersions(a, b, id);
    assert c in va && c in vb;
    var d := vb[|vb| - 1];
    assert d in vb && d in va;
    var i :| 0 <= i < |a| && a[i] == c;
    var j :| 0 <= j < |a| && a[j] == d;
    assert i != j ==> MayFollow(a[i], a[j], i < j);
  }

  lemma SameLinks(a: seq<Record>, b: seq<Record>, id: Id)
    requires Orderly(a) && Orderly(b) && SameRecords(a, b) && IsCriterion(Versions(a, id))
    ensures IsCriterion(Versions(b, id)) && Handles(a, id) == Handles(b, id) && Parents(a, id) == Parents(b, id)
  {
    SameCriterion(a, b, id);
    SameTargets(a, b, ClosesAcceptanceCriterion, id);
    SameTargets(b, a, ClosesAcceptanceCriterion, id);
    SameTargets(a, b, OwnedByTask, id);
    SameTargets(b, a, OwnedByTask, id);
  }

  lemma SameResolvers(a: seq<Record>, b: seq<Record>, id: Id, h: Id)
    requires Orderly(a) && Orderly(b) && SameRecords(a, b)
    ensures Resolver(a, id)(h) == Resolver(b, id)(h)
  {
    SameVersions(a, b, h);
    SameHandleResolution(id, Versions(a, h), Versions(b, h), h);
  }

  lemma SameRow(a: seq<Record>, b: seq<Record>, ra: Row, rb: Row)
    requires Orderly(a) && Orderly(b) && SameRecords(a, b)
    requires IsRowOf(a, ra) && IsRowOf(b, rb) && ra.id == rb.id
    ensures ra == rb
  {
    var id := ra.id;
    SameLinks(a, b, id);
    forall h ensures Resolver(a, id)(h) == Resolver(b, id)(h) { SameResolvers(a, b, id, h); }
    SameBucket(a, b, id, ra.bucket, rb.bucket);
    DoneParentAgrees(a, b, id);
  }

  lemma DoneParentAgrees(a: seq<Record>, b: seq<Record>, id: Id)
    requires Orderly(a) && Orderly(b) && SameRecords(a, b)
    requires IsCriterion(Versions(a, id)) && IsCriterion(Versions(b, id)) && Parents(a, id) == Parents(b, id)
    ensures HasDoneParent(a, id) <==> HasDoneParent(b, id)
  {
    if HasDoneParent(a, id) { SameDoneParent(a, b, id); }
    if HasDoneParent(b, id) { SameDoneParent(b, a, id); }
  }

  lemma SameBucket(a: seq<Record>, b: seq<Record>, id: Id, ba: Bucket, bb: Bucket)
    requires IsCriterion(Versions(a, id)) && IsCriterion(Versions(b, id)) && Handles(a, id) == Handles(b, id)
    requires HasBucket(a, id, ba) && HasBucket(b, id, bb)
    requires forall h :: Resolver(a, id)(h) == Resolver(b, id)(h)
    ensures ba == bb
  {
    var rs :| Resolves(Resolver(b, id), Handles(b, id), rs) && BucketFor(rs) == bb;
    SameResolver(Resolver(b, id), Resolver(a, id), Handles(a, id), rs);
    GivesOne(Resolver(a, id), Handles(a, id), ba, bb);
  }

  lemma SameDoneParent(a: seq<Record>, b: seq<Record>, id: Id)
    requires Orderly(a) && Orderly(b) && SameRecords(a, b)
    requires IsCriterion(Versions(a, id)) && IsCriterion(Versions(b, id)) && Parents(a, id) == Parents(b, id)
    requires HasDoneParent(a, id)
    ensures HasDoneParent(b, id)
  {
    var p :| p in Parents(a, id) && HasDoneVersion(Versions(a, p));
    SameVersions(a, b, p);
    SameDone(Versions(a, p), Versions(b, p));
  }

  // Any two orders of orderly records give the same rows, and so the same counts and
  // the same gate.
  lemma OrderDoesNotMatter(a: seq<Record>, b: seq<Record>, ra: map<Id, Row>, rb: map<Id, Row>)
    requires Orderly(a) && Orderly(b) && SameRecords(a, b)
    requires IsCensus(a, ra) && IsCensus(b, rb)
    ensures ra == rb
  {
    SameKeys(a, b, ra, rb);
    forall id | id in ra ensures ra[id] == rb[id] {
      SameRowAt(a, b, ra, rb, id);
    }
  }

  lemma SameRowAt(a: seq<Record>, b: seq<Record>, ra: map<Id, Row>, rb: map<Id, Row>, id: Id)
    requires Orderly(a) && Orderly(b) && SameRecords(a, b)
    requires IsCensus(a, ra) && IsCensus(b, rb) && id in ra && id in rb
    ensures ra[id] == rb[id]
  {
    SameRow(a, b, ra[id], rb[id]);
  }

  lemma SameKeys(a: seq<Record>, b: seq<Record>, ra: map<Id, Row>, rb: map<Id, Row>)
    requires Orderly(a) && Orderly(b) && SameRecords(a, b)
    requires IsCensus(a, ra) && IsCensus(b, rb)
    ensures ra.Keys == rb.Keys
  {
    forall id ensures id in ra.Keys <==> id in rb.Keys {
      if IsCriterion(Versions(a, id)) { SameCriterion(a, b, id); }
      if IsCriterion(Versions(b, id)) { SameCriterion(b, a, id); }
    }
  }

  // A criterion written twice is read in its last version: here the order decides
  // whether it is unverified or dangling.
  lemma RewrittenCriterionDependsOnOrder(c1: Record, c2: Record, rowA: Row, rowB: Row)
    requires c1.Node? && c1.kind == AcceptanceCriterion && c1.verificationLinkId == None
    requires c2 == c1.(verificationLinkId := Some(Id("gone"))) && c1.id != Id("gone")
    requires rowA.id == rowB.id == c1.id && IsRowOf([c1, c2], rowA) && IsRowOf([c2, c1], rowB)
    ensures rowA.bucket == DanglingEvidence && rowB.bucket == Unverified
  {
    LinksOfLast(c1, c2);
    LinksOfLast(c2, c1);
    NothingAt(c1, c2, Id("gone"));
    OneHandle(Resolver([c1, c2], c1.id), Id("gone"), rowA.bucket);
    NoHandle(Resolver([c2, c1], c1.id), rowB.bucket);
  }

  // An edge ID written twice is read in its last version: here the order decides whether
  // the first version still closes the criterion.
  lemma RewrittenEdgeDependsOnOrder(c: Record, e1: Record, e2: Record, rowA: Row, rowB: Row)
    requires c.Node? && c.kind == AcceptanceCriterion && c.verificationLinkId == None && c.id != Id("gone")
    requires e1.Edge? && !e1.temporal && e1.label_ == ClosesAcceptanceCriterion && e1.source == c.id && e1.target == Id("gone")
    requires e2 == e1.(label_ := OtherLabel) && e1.id != c.id
    requires rowA.id == rowB.id == c.id && IsRowOf([c, e2, e1], rowA) && IsRowOf([c, e1, e2], rowB)
    ensures rowA.bucket == DanglingEvidence && rowB.bucket == Unverified
  {
    CriterionAndTwoEdges(c, e2, e1);
    CriterionAndTwoEdges(c, e1, e2);
    OneHandle(Resolver([c, e2, e1], c.id), Id("gone"), rowA.bucket);
    NoHandle(Resolver([c, e1, e2], c.id), rowB.bucket);
  }

  lemma CriterionAndTwoEdges(c: Record, x: Record, y: Record)
    requires c.Node? && c.kind == AcceptanceCriterion && c.verificationLinkId == None && c.id != Id("gone")
    requires x.Edge? && y.Edge? && x.id == y.id && x.id != c.id
    ensures var all := [c, x, y];
      && Versions(all, Id("gone")) == [] && IsCriterion(Versions(all, c.id))
      && Handles(all, c.id) == if y.label_ == ClosesAcceptanceCriterion && y.source == c.id then {y.target} else {}
  {
    var all := [c, x, y];
    var ws := Writes(all);
    forall id ensures !Deleted(ws, id) {
      assert forall i :: 0 <= i < |ws| ==> !ws[i].TombstoneOf?;
    }
    assert forall r :: r in all && r.Node? ==> r == c;
    AnyElement(Versions(all, Id("gone")));
    assert c in Versions(all, c.id) && forall v :: v in Versions(all, c.id) ==> v == c;
    LastIsElement(Versions(all, c.id));
    assert !IsCurrentEdge(all, 0) && !IsCurrentEdge(all, 1) && IsCurrentEdge(all, 2);
  }

  lemma LastIsElement(vs: seq<Record>)
    ensures vs != [] ==> vs[|vs| - 1] in vs
  {
  }

  // A tombstone before its target deletes nothing: here the order decides whether the
  // criterion is in the census at all, and the first order is orderly.
  lemma EarlyTombstoneDependsOnOrder(c: Record, k: Record, rowsA: map<Id, Row>, rowsB: map<Id, Row>)
    requires c.Node? && c.kind == AcceptanceCriterion && !c.temporal && k.Tombstone? && k.deletedId == c.id
    requires IsCensus([c, k], rowsA) && IsCensus([k, c], rowsB)
    ensures Orderly([c, k]) && c.id !in rowsA && c.id in rowsB
  {
    LateTombstone(c, k);
    DeletedHasNone([c, k], c.id);
    EarlyTombstone(c, k);
    assert IsCriterion(Versions([k, c], c.id));
  }

  lemma LateTombstone(c: Record, k: Record)
    requires c.Node? && !c.temporal && k.Tombstone? && k.deletedId == c.id
    ensures Orderly([c, k]) && Deleted(Writes([c, k]), c.id)
  {
    var ws := Writes([c, k]);
    assert ws[1] == TombstoneOf(c.id);
  }

  lemma EarlyTombstone(c: Record, k: Record)
    requires c.Node? && c.kind == AcceptanceCriterion && k.Tombstone? && k.deletedId == c.id
    ensures IsCriterion(Versions([k, c], c.id))
  {
    var b := [k, c];
    assert IsWriteOf(Writes(b)[1], c.id);
    assert !Deleted(Writes(b), c.id);
    assert b[1] in Versions(b, c.id) && forall v :: v in Versions(b, c.id) ==> v == c;
    LastIsElement(Versions(b, c.id));
  }

  lemma DeletedHasNone(records: seq<Record>, id: Id)
    requires Deleted(Writes(records), id)
    ensures Versions(records, id) == []
  {
    AnyElement(Versions(records, id));
  }

  lemma OneHandle(resolve: Id -> Resolution, h: Id, bucket: Bucket)
    requires Gives(resolve, {h}, bucket)
    ensures bucket == BucketFor([resolve(h)])
  {
  }

  lemma NoHandle(resolve: Id -> Resolution, bucket: Bucket)
    requires Gives(resolve, {}, bucket)
    ensures bucket == Unverified
  {
  }

  lemma NothingAt(x: Record, y: Record, id: Id)
    requires x.Node? && y.Node? && x.id != id && y.id != id
    ensures Versions([x, y], id) == []
  {
    var vs := Versions([x, y], id);
    assert forall r :: r in [x, y] ==> r.Node? && r.id != id;
    AnyElement(vs);
  }

  lemma AnyElement(vs: seq<Record>)
    ensures vs != [] ==> exists v :: v in vs
  {
    if vs != [] { assert vs[0] in vs; }
  }

  lemma LinksOfLast(x: Record, y: Record)
    requires x.Node? && y.Node? && x.id == y.id && y.kind == AcceptanceCriterion
    ensures IsCriterion(Versions([x, y], x.id)) && Handles([x, y], x.id) == Given(y.verificationLinkId)
  {
  }
}
