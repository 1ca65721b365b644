/**
 Exactly which records the census reads alike in every order, whatever is appended later
 (src/criteria_coverage.rs:685-744, src/query/liveness.rs).
 */
module CriteriaOrder {
  import opened Wrappers
  import opened Liveness
  import opened Listing
  import opened CriteriaCoverage
  import opened CriteriaFacts

  // ---------------------------------------------------------------- what the census reads

  // A criterion is read for its links.
  function CriterionOf(r: Record): Option<(Option<Id>, Option<Id>)> {
    if r.Node? && r.kind == AcceptanceCriterion then Some((r.verificationLinkId, r.parentTaskId)) else None
  }

  function CriterionAt(records: seq<Record>, id: Id): Option<(Option<Id>, Option<Id>)> {
    var vs := Versions(records, id);
    if vs == [] then None else CriterionOf(vs[|vs| - 1])
  }

  // The live versions of an ID and its links as a criterion; and a join.
  ghost predicate SameAt(a: seq<Record>, b: seq<Record>, id: Id) {
    SameRecords(Versions(a, id), Versions(b, id)) && CriterionAt(a, id) == CriterionAt(b, id)
  }

  ghost predicate SameJoin(a: seq<Record>, b: seq<Record>, label_: Label, source: Id) {
    TargetsOf(a, label_, source) == TargetsOf(b, label_, source)
  }

  ghost predicate SameView(a: seq<Record>, b: seq<Record>) {
    && (forall id :: SameAt(a, b, id))
    && (forall label_, s :: label_ != OtherLabel ==> SameJoin(a, b, label_, s))
  }

  lemma SameViewSameLinks(a: seq<Record>, b: seq<Record>, id: Id)
    requires SameView(a, b) && IsCriterion(Versions(a, id))
    ensures IsCriterion(Versions(b, id)) && Handles(a, id) == Handles(b, id) && Parents(a, id) == Parents(b, id)
  {
    assert SameAt(a, b, id);
    assert SameJoin(a, b, ClosesAcceptanceCriterion, id) && SameJoin(a, b, OwnedByTask, id);
  }

  lemma VersionsAreOfId(records: seq<Record>, id: Id)
    ensures forall v :: v in Versions(records, id) ==> v.Node? && v.id == id
  {
  }

  lemma SameViewSameResolver(a: seq<Record>, b: seq<Record>, id: Id, h: Id)
    requires SameView(a, b)
    ensures Resolver(a, id)(h) == Resolver(b, id)(h)
  {
    assert SameAt(a, b, h);
    VersionsAreOfId(a, h);
    SameHandleResolution(id, Versions(a, h), Versions(b, h), h);
  }

  // What is read alike is judged alike.
  lemma SameViewSameRow(a: seq<Record>, b: seq<Record>, ra: Row, rb: Row)
    requires SameView(a, b) && IsRowOf(a, ra) && IsRowOf(b, rb) && ra.id == rb.id
    ensures ra == rb
  {
    SameViewSameLinks(a, b, ra.id);
    SameViewSameBucket(a, b, ra.id, ra.bucket, rb.bucket);
    SameViewParentsAgree(a, b, ra.id);
  }

  lemma SameViewParentsAgree(a: seq<Record>, b: seq<Record>, id: Id)
    requires SameView(a, b) && IsCriterion(Versions(a, id)) && IsCriterion(Versions(b, id)) && Parents(a, id) == Parents(b, id)
    ensures HasDoneParent(a, id) <==> HasDoneParent(b, id)
  {
    SameViewSameParent(a, b, id);
    SameViewSameParent(b, a, id);
  }

  lemma SameViewSameBucket(a: seq<Record>, b: seq<Record>, id: Id, ba: Bucket, bb: Bucket)
    requires SameView(a, b) && IsCriterion(Versions(a, id)) && IsCriterion(Versions(b, id))
    requires HasBucket(a, id, ba) && HasBucket(b, id, bb)
    ensures ba == bb
  {
    SameViewSameLinks(a, b, id);
    forall h ensures Resolver(a, id)(h) == Resolver(b, id)(h) { SameViewSameResolver(a, b, id, h); }
    SameBucket(a, b, id, ba, bb);
  }

  lemma SameViewSameParent(a: seq<Record>, b: seq<Record>, id: Id)
    requires forall h :: SameAt(a, b, h) || SameAt(b, a, h)
    requires IsCriterion(Versions(a, id)) && IsCriterion(Versions(b, id)) && Parents(a, id) == Parents(b, id)
    ensures HasDoneParent(a, id) ==> HasDoneParent(b, id)
  {
    if HasDoneParent(a, id) {
      var p :| p in Parents(a, id) && HasDoneVersion(Versions(a, p));
      assert SameAt(a, b, p) || SameAt(b, a, p);
      SameDone(Versions(a, p), Versions(b, p));
    }
  }

  lemma SameViewSameCensus(a: seq<Record>, b: seq<Record>, ra: map<Id, Row>, rb: map<Id, Row>)
    requires SameView(a, b) && IsCensus(a, ra) && IsCensus(b, rb)
    ensures ra == rb
  {
    SameViewSameKeys(a, b, ra, rb);
    forall id | id in ra ensures ra[id] == rb[id] { SameViewSameRowAt(a, b, ra, rb, id); }
  }

  lemma SameViewSameRowAt(a: seq<Record>, b: seq<Record>, ra: map<Id, Row>, rb: map<Id, Row>, id: Id)
    requires SameView(a, b) && IsCensus(a, ra) && IsCensus(b, rb) && id in ra && id in rb
    ensures ra[id] == rb[id]
  {
    SameViewSameRow(a, b, ra[id], rb[id]);
  }

  lemma SameViewSameKeys(a: seq<Record>, b: seq<Record>, ra: map<Id, Row>, rb: map<Id, Row>)
    requires SameView(a, b) && IsCensus(a, ra) && IsCensus(b, rb)
    ensures ra.Keys == rb.Keys
  {
    forall id ensures id in ra.Keys <==> id in rb.Keys { SameViewSameCriterion(a, b, id); }
  }

  lemma SameViewSameCriterion(a: seq<Record>, b: seq<Record>, id: Id)
    requires SameView(a, b)
    ensures IsCriterion(Versions(a, id)) <==> IsCriterion(Versions(b, id))
  {
    assert SameAt(a, b, id);
  }

  // ---------------------------------------------------------------- the last record of a sort

  function LastIn(records: seq<Record>, p: Record -> bool): Option<Record> {
    if records == [] then None
    else if p(records[|records| - 1]) then Some(records[|records| - 1])
    else LastIn(records[..|records| - 1], p)
  }

  lemma {:induction false} LastInMeans(records: seq<Record>, p: Record -> bool)
    ensures LastIn(records, p).Some? ==> LastIn(records, p).value in records && p(LastIn(records, p).value)
    ensures LastIn(records, p).None? ==> forall r :: r in records ==> !p(r)
  {
    if records != [] {
      var front, last := records[..|records| - 1], records[|records| - 1];
      assert records == front + [last];
      LastInMeans(front, p);
    }
  }

  lemma {:induction false} LastConcat(x: seq<Record>, y: seq<Record>, p: Record -> bool)
    ensures LastIn(x + y, p) == if LastIn(y, p).Some? then LastIn(y, p) else LastIn(x, p)
  {
    if y == [] {
      assert x + y == x;
    } else {
      assert (x + y)[..|x + y| - 1] == x + y[..|y| - 1];
      LastConcat(x, y[..|y| - 1], p);
    }
  }

  // A write or a tombstone of an ID, an edge with it, a node with it.
  predicate IsEvent(r: Record, id: Id) {
    if r.Tombstone? then r.deletedId == id else r.id == id
  }

  function EventOf(id: Id): Record -> bool {
    (r: Record) => IsEvent(r, id)
  }

  function EdgeOf(id: Id): Record -> bool {
    (r: Record) => r.Edge? && r.id == id
  }

  function NodeOf(id: Id): Record -> bool {
    (r: Record) => r.Node? && r.id == id
  }

  predicate EndsDeleted(records: seq<Record>, id: Id) {
    LastIn(records, EventOf(id)).Some? && LastIn(records, EventOf(id)).value.Tombstone?
  }

  lemma {:induction false} TombstoneIsLast(records: seq<Record>, id: Id)
    ensures TombstoneActive(Writes(records), id) <==> EndsDeleted(records, id)
  {
    if records != [] {
      var front, last := records[..|records| - 1], records[|records| - 1];
      TombstoneIsLast(front, id);
      assert Writes(records) == Writes(front) + [WriteOf(last)];
      ActiveAtEnd(Writes(front), WriteOf(last), id);
    }
  }

  lemma ActiveAtEnd(ws: seq<Write>, w: Write, id: Id)
    ensures TombstoneActive(ws + [w], id) <==> w == TombstoneOf(id) || (!IsWriteOf(w, id) && TombstoneActive(ws, id))
  {
    var more := ws + [w];
    assert more[|ws|] == w && forall i :: 0 <= i < |ws| ==> more[i] == ws[i];
    if TombstoneActive(ws, id) && !IsWriteOf(w, id) {
      var i :| 0 <= i < |ws| && ws[i] == TombstoneOf(id) && forall j :: i < j < |ws| ==> !IsWriteOf(ws[j], id);
      assert more[i] == TombstoneOf(id);
    }
    if TombstoneActive(more, id) && w != TombstoneOf(id) {
      var i :| 0 <= i < |more| && more[i] == TombstoneOf(id) && forall j :: i < j < |more| ==> !IsWriteOf(more[j], id);
      assert ws[i] == TombstoneOf(id) && !IsWriteOf(more[|ws|], id);
    }
  }

  lemma HistoryIsTemporal(records: seq<Record>, id: Id)
    ensures HasTemporal(Writes(records), id) <==> HasHistory(records, id)
  {
    var ws := Writes(records);
    if HasTemporal(ws, id) {
      var i :| 0 <= i < |ws| && IsWriteOf(ws[i], id) && ws[i].temporal;
      assert records[i] in records;
    }
    if HasHistory(records, id) {
      var r :| r in records && !r.Tombstone? && r.id == id && r.temporal;
      var i :| 0 <= i < |records| && records[i] == r;
      assert IsWriteOf(ws[i], id) && ws[i].temporal;
    }
  }

  lemma DeletedByLast(records: seq<Record>, id: Id)
    ensures Deleted(Writes(records), id) <==> !HasHistory(records, id) && EndsDeleted(records, id)
  {
    TombstoneIsLast(records, id);
    HistoryIsTemporal(records, id);
  }

  // The links that count: of live edges in their last version.
  predicate IsLink(e: Option<Record>, label_: Label, s: Id, t: Id) {
    e.Some? && e.value.Edge? && e.value.label_ == label_ && e.value.source == s && e.value.target == t
  }

  ghost predicate Gives(records: seq<Record>, id: Id, label_: Label, s: Id, t: Id) {
    !Deleted(Writes(records), id) && IsLink(LastIn(records, EdgeOf(id)), label_, s, t)
  }

  lemma {:induction false} LatestIsLast(records: seq<Record>, i: nat)
    requires i < |records| && records[i].Edge? && IsLatestEdgeVersion(Writes(records), i)
    ensures LastIn(records, EdgeOf(records[i].id)) == Some(records[i])
  {
    if i < |records| - 1 {
      assert !(Writes(records)[|records| - 1].EdgeWrite? && Writes(records)[|records| - 1].id == records[i].id);
      var front := records[..|records| - 1];
      assert forall j :: 0 <= j < |front| ==> Writes(front)[j] == Writes(records)[j];
      LatestIsLast(front, i);
    }
  }

  lemma {:induction false} LastIsLatest(records: seq<Record>, id: Id) returns (i: nat)
    requires LastIn(records, EdgeOf(id)).Some?
    ensures i < |records| && Some(records[i]) == LastIn(records, EdgeOf(id)) && records[i].Edge? && records[i].id == id
    ensures IsLatestEdgeVersion(Writes(records), i)
  {
    i := |records| - 1;
    if !(records[i].Edge? && records[i].id == id) {
      var front := records[..|records| - 1];
      i := LastIsLatest(front, id);
      assert forall j :: 0 <= j < |front| ==> Writes(front)[j] == Writes(records)[j];
    }
  }

  lemma TargetsAreGiven(records: seq<Record>, label_: Label, s: Id, t: Id)
    ensures t in TargetsOf(records, label_, s) <==> exists id :: Gives(records, id, label_, s, t)
  {
    if t in TargetsOf(records, label_, s) {
      var i :| 0 <= i < |records| && IsCurrentEdge(records, i) && records[i].label_ == label_ && records[i].source == s
        && records[i].target == t;
      LatestIsLast(records, i);
      assert Gives(records, records[i].id, label_, s, t);
    }
    if id :| Gives(records, id, label_, s, t) {
      var i := LastIsLatest(records, id);
      assert IsCurrentEdge(records, i) && records[i].target == t;
    }
  }

  // The last live version of an ID is its last node.
  lemma {:induction false} LastVersionIsLast(ws: seq<Write>, records: seq<Record>, id: Id)
    requires !Deleted(ws, id)
    ensures var vs, last := VersionsIn(ws, records, id), LastIn(records, NodeOf(id));
      if vs == [] then last.None? else last == Some(vs[|vs| - 1])
  {
    if records != [] { LastVersionIsLast(ws, records[..|records| - 1], id); }
  }

  lemma CriterionIsLast(records: seq<Record>, id: Id)
    ensures CriterionAt(records, id) ==
      if Deleted(Writes(records), id) || LastIn(records, NodeOf(id)).None? then None
      else CriterionOf(LastIn(records, NodeOf(id)).value)
  {
    if Deleted(Writes(records), id) {
      DeletedHasNone(records, id);
    } else {
      LastVersionIsLast(Writes(records), records, id);
    }
  }

  // ---------------------------------------------------------------- records that commute

  // A record the census reads: a node, or an edge of one of its two joins.
  predicate IsRead(r: Record) {
    r.Node? || (r.Edge? && r.label_ != OtherLabel)
  }

  function LinkOf(r: Record): Option<(Label, Id, Id)> {
    if r.Edge? && r.label_ != OtherLabel then Some((r.label_, r.source, r.target)) else None
  }

  // Versions of an edge make the same link; versions of a node are the same criterion or
  // none is one; and what a tombstone deletes is kept by history or not read at all.
  ghost predicate Commute(records: seq<Record>, r: Record, q: Record) {
    && (r.Tombstone? && !q.Tombstone? && q.id == r.deletedId && IsRead(q) ==> HasHistory(records, q.id))
    && (r.Edge? && q.Edge? && r.id == q.id ==> LinkOf(r) == LinkOf(q))
    && (r.Node? && q.Node? && r.id == q.id ==> CriterionOf(r) == CriterionOf(q))
  }

  ghost predicate Commutes(records: seq<Record>) {
    forall r, q :: r in records && q in records ==> Commute(records, r, q)
  }

  // In any context the census reads every order alike.
  ghost predicate OrderFree(records: seq<Record>) {
    forall a, b, c ::
      multiset(a) == multiset(records) && multiset(b) == multiset(records) ==> SameView(a + c, b + c)
  }

  // ---------------------------------------------------------------- commuting is enough

  lemma SameMultiset(a: seq<Record>, b: seq<Record>)
    requires multiset(a) == multiset(b)
    ensures SameRecords(a, b)
  {
    forall r ensures r in a <==> r in b { assert r in multiset(a) <==> r in multiset(b); }
  }

  lemma SameHistory(a: seq<Record>, b: seq<Record>, id: Id)
    requires SameRecords(a, b)
    ensures HasHistory(a, id) <==> HasHistory(b, id)
  {
  }

  lemma SameWithMore(a: seq<Record>, b: seq<Record>, c: seq<Record>)
    requires SameRecords(a, b)
    ensures SameRecords(a + c, b + c)
  {
  }

  // Nothing with the ID is read.
  ghost predicate Unread(records: seq<Record>, id: Id) {
    forall r :: r in records && !r.Tombstone? && r.id == id ==> !IsRead(r)
  }

  // Whether an ID is deleted is the same in both orders, unless nothing with it is read.
  lemma DeletedAgrees(a: seq<Record>, b: seq<Record>, c: seq<Record>, id: Id)
    requires Commutes(a) && SameRecords(a, b) && !Unread(a + c, id)
    ensures Deleted(Writes(a + c), id) ==> Deleted(Writes(b + c), id)
  {
    DeletedByLast(a + c, id);
    DeletedByLast(b + c, id);
    LastConcat(a, c, EventOf(id));
    LastConcat(b, c, EventOf(id));
    SameWithMore(a, b, c);
    SameHistory(a + c, b + c, id);
    LastInMeans(c, EventOf(id));
    LastInMeans(a, EventOf(id));
    if LastIn(c, EventOf(id)).None? && EndsDeleted(a, id) { HistoryKept(a, c, id); }
  }

  lemma HistoryKept(a: seq<Record>, c: seq<Record>, id: Id)
    requires Commutes(a) && !Unread(a + c, id)
    requires EndsDeleted(a, id) && LastIn(c, EventOf(id)).None?
    ensures HasHistory(a + c, id)
  {
    LastInMeans(a, EventOf(id));
    LastInMeans(c, EventOf(id));
    var k := LastIn(a, EventOf(id)).value;
    var q :| q in a + c && !q.Tombstone? && q.id == id && IsRead(q);
    assert EventOf(id)(q) && Commute(a, k, q);
    var r :| r in a && !r.Tombstone? && r.id == id && r.temporal;
    assert r in a + c;
  }

  lemma CommutesToo(a: seq<Record>, b: seq<Record>)
    requires Commutes(a) && SameRecords(a, b)
    ensures Commutes(b)
  {
    forall r, q | r in b && q in b ensures Commute(b, r, q) {
      assert Commute(a, r, q);
      if q.Node? || q.Edge? { SameHistory(a, b, q.id); }
    }
  }

  lemma DeletedSame(a: seq<Record>, b: seq<Record>, c: seq<Record>, id: Id)
    requires Commutes(a) && SameRecords(a, b) && !Unread(a + c, id)
    ensures Deleted(Writes(a + c), id) <==> Deleted(Writes(b + c), id)
  {
    CommutesToo(a, b);
    SameWithMore(a, b, c);
    DeletedAgrees(a, b, c, id);
    DeletedAgrees(b, a, c, id);
  }

  lemma VersionsSame(a: seq<Record>, b: seq<Record>, c: seq<Record>, id: Id)
    requires Commutes(a) && SameRecords(a, b)
    ensures SameRecords(Versions(a + c, id), Versions(b + c, id))
  {
    SameWithMore(a, b, c);
    if !Unread(a + c, id) { DeletedSame(a, b, c, id); }
  }

  lemma CriterionSame(a: seq<Record>, b: seq<Record>, c: seq<Record>, id: Id)
    requires Commutes(a) && SameRecords(a, b)
    ensures CriterionAt(a + c, id) == CriterionAt(b + c, id)
  {
    CriterionIsLast(a + c, id);
    CriterionIsLast(b + c, id);
    SameWithMore(a, b, c);
    LastInMeans(a + c, NodeOf(id));
    LastInMeans(b + c, NodeOf(id));
    LastConcat(a, c, NodeOf(id));
    LastConcat(b, c, NodeOf(id));
    LastInMeans(a, NodeOf(id));
    LastInMeans(b, NodeOf(id));
    var x, y := LastIn(a, NodeOf(id)), LastIn(b, NodeOf(id));
    assert x.Some? && y.Some? ==> Commute(a, x.value, y.value);
    if LastIn(a + c, NodeOf(id)).Some? {
      assert IsRead(LastIn(a + c, NodeOf(id)).value);
      DeletedSame(a, b, c, id);
    }
  }

  lemma LinkSame(a: seq<Record>, b: seq<Record>, c: seq<Record>, id: Id, label_: Label, s: Id, t: Id)
    requires Commutes(a) && SameRecords(a, b) && label_ != OtherLabel && Gives(a + c, id, label_, s, t)
    ensures Gives(b + c, id, label_, s, t)
  {
    LastInMeans(a + c, EdgeOf(id));
    LastConcat(a, c, EdgeOf(id));
    LastConcat(b, c, EdgeOf(id));
    LastInMeans(a, EdgeOf(id));
    LastInMeans(b, EdgeOf(id));
    assert IsRead(LastIn(a + c, EdgeOf(id)).value);
    DeletedSame(a, b, c, id);
    var x, y := LastIn(a, EdgeOf(id)), LastIn(b, EdgeOf(id));
    assert x.Some? ==> EdgeOf(id)(x.value) && x.value in b;
    assert x.Some? && y.Some? ==> Commute(a, x.value, y.value);
  }

  // Commuting records are read alike in every order and number, before any other records.
  lemma CommutingIsEnough(a: seq<Record>, b: seq<Record>, c: seq<Record>)
    requires Commutes(a) && SameRecords(a, b)
    ensures SameView(a + c, b + c)
  {
    forall id ensures SameAt(a + c, b + c, id) {
      VersionsSame(a, b, c, id);
      CriterionSame(a, b, c, id);
    }
    CommutesToo(a, b);
    forall label_, s | label_ != OtherLabel ensures SameJoin(a + c, b + c, label_, s) {
      JoinSame(a, b, c, label_, s);
      JoinSame(b, a, c, label_, s);
    }
  }

  lemma JoinSame(a: seq<Record>, b: seq<Record>, c: seq<Record>, label_: Label, s: Id)
    requires Commutes(a) && SameRecords(a, b) && label_ != OtherLabel
    ensures TargetsOf(a + c, label_, s) <= TargetsOf(b + c, label_, s)
  {
    forall t | t in TargetsOf(a + c, label_, s) ensures t in TargetsOf(b + c, label_, s) {
      TargetsAreGiven(a + c, label_, s, t);
      TargetsAreGiven(b + c, label_, s, t);
      var id :| Gives(a + c, id, label_, s, t);
      LinkSame(a, b, c, id, label_, s, t);
    }
  }

  // ---------------------------------------------------------------- and needed

  // The same records with one of them last.
  lemma MoveLast(records: seq<Record>, r: Record) returns (a: seq<Record>)
    requires r in records
    ensures multiset(a) == multiset(records) && SameRecords(a, records)
    ensures a != [] && a[|a| - 1] == r
  {
    var k :| 0 <= k < |records| && records[k] == r;
    a := Without(records, k) + [r];
    TakeOut(records, k);
    SameMultiset(a, records);
  }

  lemma NotOrderFree(records: seq<Record>, a: seq<Record>, b: seq<Record>, c: seq<Record>)
    requires multiset(a) == multiset(records) && multiset(b) == multiset(records) && !SameView(a + c, b + c)
    ensures !OrderFree(records)
  {
  }

  // Later versions that take every other edge out of the joins.
  function Others(records: seq<Record>, id: Id): seq<Record> {
    if records == [] then []
    else
      var front, last := Others(records[..|records| - 1], id), records[|records| - 1];
      if last.Edge? && last.id != id then front + [last.(label_ := OtherLabel, temporal := false)] else front
  }

  lemma {:induction false} OthersMean(records: seq<Record>, id: Id)
    ensures forall r :: r in Others(records, id) ==> r.Edge? && r.id != id && r.label_ == OtherLabel && !r.temporal
    ensures forall r :: r in records && r.Edge? && r.id != id ==> exists q :: q in Others(records, id) && q.id == r.id
  {
    if records != [] {
      var front, last := records[..|records| - 1], records[|records| - 1];
      OthersMean(front, id);
      assert records == front + [last];
      if last.Edge? && last.id != id {
        var q := last.(label_ := OtherLabel, temporal := false);
        assert Others(records, id) == Others(front, id) + [q];
        assert q in Others(records, id) && q.id == last.id;
      }
    }
  }

  // After them only the edge with the ID can give a link.
  lemma OnlyItsLink(x: seq<Record>, records: seq<Record>, id: Id, label_: Label, s: Id, t: Id)
    requires SameRecords(x, records) && label_ != OtherLabel
    ensures t in TargetsOf(x + Others(records, id), label_, s) <==> Gives(x, id, label_, s, t)
  {
    var c := Others(records, id);
    OthersMean(records, id);
    TargetsAreGiven(x + c, label_, s, t);
    ItsLinkStays(x, c, id, label_, s, t);
    forall other | Gives(x + c, other, label_, s, t) ensures other == id {
      if other != id { OthersGiveNone(x, c, other, label_, s, t); }
    }
  }

  lemma ItsLinkStays(x: seq<Record>, c: seq<Record>, id: Id, label_: Label, s: Id, t: Id)
    requires forall r :: r in c ==> r.Edge? && r.id != id
    ensures Gives(x + c, id, label_, s, t) <==> Gives(x, id, label_, s, t)
  {
    LastInMeans(c, EdgeOf(id));
    LastInMeans(c, EventOf(id));
    LastConcat(x, c, EdgeOf(id));
    LastConcat(x, c, EventOf(id));
    DeletedByLast(x + c, id);
    DeletedByLast(x, id);
    assert HasHistory(x + c, id) <==> HasHistory(x, id);
  }

  lemma OthersGiveNone(x: seq<Record>, c: seq<Record>, other: Id, label_: Label, s: Id, t: Id)
    requires forall r :: r in c ==> r.Edge? && r.label_ == OtherLabel
    requires forall r :: r in x && r.Edge? && r.id == other ==> exists q :: q in c && q.id == other
    requires label_ != OtherLabel
    ensures !Gives(x + c, other, label_, s, t)
  {
    LastConcat(x, c, EdgeOf(other));
    LastInMeans(c, EdgeOf(other));
    LastInMeans(x, EdgeOf(other));
    if r :| r in x && r.Edge? && r.id == other {
      var q :| q in c && q.id == other;
      assert EdgeOf(other)(q);
    }
  }

  // A record written last is live.
  lemma LastIsLive(x: seq<Record>)
    requires x != [] && !x[|x| - 1].Tombstone?
    ensures !Deleted(Writes(x), x[|x| - 1].id)
  {
    DeletedByLast(x, x[|x| - 1].id);
  }

  lemma EdgeVersionsMatter(records: seq<Record>, r: Record, q: Record)
    requires r in records && q in records && r.Edge? && q.Edge? && r.id == q.id
    requires LinkOf(r).Some? && LinkOf(r) != LinkOf(q)
    ensures !OrderFree(records)
  {
    var a := MoveLast(records, r);
    var b := MoveLast(records, q);
    var c := Others(records, r.id);
    OnlyItsLink(a, records, r.id, r.label_, r.source, r.target);
    OnlyItsLink(b, records, r.id, r.label_, r.source, r.target);
    LastIsLive(a);
    assert r.target in TargetsOf(a + c, r.label_, r.source) && r.target !in TargetsOf(b + c, r.label_, r.source);
    assert !SameJoin(a + c, b + c, r.label_, r.source);
    NotOrderFree(records, a, b, c);
  }

  lemma TombstoneMatters(records: seq<Record>, k: Record, q: Record)
    requires k in records && q in records && k.Tombstone? && !q.Tombstone? && q.id == k.deletedId
    requires IsRead(q) && !HasHistory(records, q.id)
    ensures !OrderFree(records)
  {
    var a := MoveLast(records, q);
    var b := MoveLast(records, k);
    LastIsLive(a);
    SameHistory(b, records, q.id);
    DeletedByLast(b, q.id);
    if q.Edge? {
      var c := Others(records, q.id);
      OnlyItsLink(a, records, q.id, q.label_, q.source, q.target);
      OnlyItsLink(b, records, q.id, q.label_, q.source, q.target);
      assert q.target in TargetsOf(a + c, q.label_, q.source) && q.target !in TargetsOf(b + c, q.label_, q.source);
      assert !SameJoin(a + c, b + c, q.label_, q.source);
      NotOrderFree(records, a, b, c);
    } else {
      assert a + [] == a && b + [] == b;
      DeletedHasNone(b, q.id);
      assert q in Versions(a, q.id);
      assert !SameAt(a, b, q.id);
      NotOrderFree(records, a, b, []);
    }
  }

  lemma NodeVersionsMatter(records: seq<Record>, r: Record, q: Record)
    requires r in records && q in records && r.Node? && q.Node? && r.id == q.id && CriterionOf(r) != CriterionOf(q)
    ensures !OrderFree(records)
  {
    var a := MoveLast(records, r);
    var b := MoveLast(records, q);
    assert a + [] == a && b + [] == b;
    LastIsLive(a);
    LastIsLive(b);
    CriterionIsLast(a, r.id);
    CriterionIsLast(b, r.id);
    assert !SameAt(a, b, r.id);
    NotOrderFree(records, a, b, []);
  }

  // Records are read alike in every order, whatever follows them, exactly when every two of
  // them commute.
  lemma OrderFreeExactly(records: seq<Record>)
    ensures OrderFree(records) <==> Commutes(records)
  {
    if Commutes(records) {
      forall a, b, c | multiset(a) == multiset(records) && multiset(b) == multiset(records) ensures SameView(a + c, b + c) {
        SameMultiset(records, a);
        SameMultiset(records, b);
        CommutesToo(records, a);
        CommutingIsEnough(a, b, c);
      }
    } else {
      var r, q :| r in records && q in records && !Commute(records, r, q);
      if r.Tombstone? {
        TombstoneMatters(records, r, q);
      } else if r.Node? {
        NodeVersionsMatter(records, r, q);
      } else if LinkOf(r).Some? {
        EdgeVersionsMatter(records, r, q);
      } else {
        EdgeVersionsMatter(records, q, r);
      }
    }
  }

  // So any two orders of commuting records, with the same records after them, have the
  // same census.
  lemma CommutingCensus(a: seq<Record>, b: seq<Record>, c: seq<Record>, ra: map<Id, Row>, rb: map<Id, Row>)
    requires Commutes(a) && multiset(a) == multiset(b)
    requires IsCensus(a + c, ra) && IsCensus(b + c, rb)
    ensures ra == rb
  {
    SameMultiset(a, b);
    CommutingIsEnough(a, b, c);
    SameViewSameCensus(a + c, b + c, ra, rb);
  }
}
