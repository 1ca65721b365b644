/**
 Why an undated version of a task can only widen the alarm of the census
 (src/criteria_coverage.rs:836-905).
 */
module CriteriaGrowth {
  import opened Wrappers
  import opened Liveness
  import opened CriteriaCoverage
  import opened CriteriaFacts

  // A version of a task that cannot be dated.
  predicate IsUndatedTask(t: Record) {
    t.Node? && t.kind == Task && t.instant.None?
  }

  lemma DeletedElsewhere(records: seq<Record>, t: Record, id: Id)
    requires t.Node? && id != t.id
    ensures Deleted(Writes(records + [t]), id) <==> Deleted(Writes(records), id)
  {
    var ws, more := Writes(records), Writes(records + [t]);
    assert more == ws + [WriteOf(t)];
    if HasTemporal(ws, id) {
      var i :| 0 <= i < |ws| && IsWriteOf(ws[i], id) && ws[i].temporal;
      assert IsWriteOf(more[i], id) && more[i].temporal;
    }
    if TombstoneActive(ws, id) {
      var i :| 0 <= i < |ws| && ws[i] == TombstoneOf(id) && forall j :: i < j < |ws| ==> !IsWriteOf(ws[j], id);
      assert more[i] == TombstoneOf(id);
    }
    if TombstoneActive(more, id) {
      var i :| 0 <= i < |more| && more[i] == TombstoneOf(id) && forall j :: i < j < |more| ==> !IsWriteOf(more[j], id);
      assert ws[i] == TombstoneOf(id);
      assert forall j :: 0 <= j < |ws| ==> more[j] == ws[j];
    }
  }

  lemma RewrittenIsLive(records: seq<Record>, t: Record)
    requires t.Node?
    ensures !Deleted(Writes(records + [t]), t.id)
  {
    var more := Writes(records + [t]);
    assert IsWriteOf(more[|records|], t.id);
  }

  lemma VersionsElsewhere(records: seq<Record>, t: Record, id: Id)
    requires t.Node? && id != t.id
    ensures Versions(records + [t], id) == Versions(records, id)
  {
    DeletedElsewhere(records, t, id);
    assert (records + [t])[..|records|] == records;
    SameWrites(Writes(records), Writes(records + [t]), records, id);
  }

  lemma SameWrites(ws: seq<Write>, more: seq<Write>, records: seq<Record>, id: Id)
    requires Deleted(ws, id) <==> Deleted(more, id)
    ensures VersionsIn(ws, records, id) == VersionsIn(more, records, id)
  {
  }

  lemma VersionsKept(records: seq<Record>, t: Record, v: Record)
    requires t.Node? && v in Versions(records, t.id)
    ensures v in Versions(records + [t], t.id) && t in Versions(records + [t], t.id)
  {
  }

  // A new version of a node brings the latest deleted edge with its ID back to life.
  predicate IsRevived(records: seq<Record>, t: Record, i: nat)
    requires i < |records|
  {
    records[i].Edge? && records[i].id == t.id && Deleted(Writes(records), t.id) && IsLatestEdgeVersion(Writes(records), i)
  }

  lemma EdgeGrown(records: seq<Record>, t: Record, i: nat)
    requires t.Node? && i < |records|
    ensures IsCurrentEdge(records + [t], i) <==> IsCurrentEdge(records, i) || IsRevived(records, t, i)
  {
    var ws, more := Writes(records), Writes(records + [t]);
    assert more == ws + [WriteOf(t)];
    var r := records[i];
    assert forall j :: 0 <= j < |ws| ==> more[j] == ws[j];
    assert IsLatestEdgeVersion(more, i) <==> IsLatestEdgeVersion(ws, i) by {
      assert !more[|ws|].EdgeWrite?;
    }
    if r.Edge? {
      if r.id == t.id {
        RewrittenIsLive(records, t);
      } else {
        DeletedElsewhere(records, t, r.id);
      }
    }
  }

  predicate Revives(records: seq<Record>, t: Record, i: nat, label_: Label, source: Id)
    requires i < |records|
  {
    IsRevived(records, t, i) && records[i].label_ == label_ && records[i].source == source
  }

  // The targets that come back with that edge.
  ghost function Revived(records: seq<Record>, t: Record, label_: Label, source: Id): set<Id> {
    set i | 0 <= i < |records| && Revives(records, t, i, label_, source) :: records[i].target
  }

  lemma TargetsGrown(records: seq<Record>, t: Record, label_: Label, source: Id)
    requires t.Node?
    ensures TargetsOf(records + [t], label_, source) == TargetsOf(records, label_, source) + Revived(records, t, label_, source)
  {
    var more := records + [t];
    forall x ensures x in TargetsOf(more, label_, source) <==>
                     x in TargetsOf(records, label_, source) + Revived(records, t, label_, source) {
      if x in TargetsOf(more, label_, source) {
        var i :| 0 <= i < |more| && IsCurrentEdge(more, i) && more[i].label_ == label_ && more[i].source == source && more[i].target == x;
        assert i < |records|;
        EdgeGrown(records, t, i);
        assert IsCurrentEdge(records, i) || Revives(records, t, i, label_, source);
      }
      if x in TargetsOf(records, label_, source) {
        var i :| 0 <= i < |records| && IsCurrentEdge(records, i) && records[i].label_ == label_ && records[i].source == source
          && records[i].target == x;
        EdgeGrown(records, t, i);
        assert more[i] == records[i];
      }
      if x in Revived(records, t, label_, source) {
        var i :| 0 <= i < |records| && Revives(records, t, i, label_, source) && records[i].target == x;
        EdgeGrown(records, t, i);
        assert more[i] == records[i];
      }
    }
  }

  // The criterion itself stays; it keeps what closes and owns it, and gains what comes back.
  lemma LinksGrown(records: seq<Record>, t: Record, id: Id)
    requires t.Node? && id != t.id && IsCriterion(Versions(records, id))
    ensures IsCriterion(Versions(records + [t], id))
    ensures Handles(records + [t], id) == Handles(records, id) + Revived(records, t, ClosesAcceptanceCriterion, id)
    ensures Parents(records + [t], id) == Parents(records, id) + Revived(records, t, OwnedByTask, id)
  {
    VersionsElsewhere(records, t, id);
    HandlesGrown(records, t, id);
    ParentsGrown(records, t, id);
  }

  lemma HandlesGrown(records: seq<Record>, t: Record, id: Id)
    requires t.Node? && IsCriterion(Versions(records, id)) && Versions(records + [t], id) == Versions(records, id)
    ensures Handles(records + [t], id) == Handles(records, id) + Revived(records, t, ClosesAcceptanceCriterion, id)
  {
    TargetsGrown(records, t, ClosesAcceptanceCriterion, id);
    var label_, versions := ClosesAcceptanceCriterion, Versions(records, id);
    AddToBoth(TargetsOf(records + [t], label_, id), TargetsOf(records, label_, id), Revived(records, t, label_, id),
              Given(versions[|versions| - 1].verificationLinkId));
  }

  lemma AddToBoth(more: set<Id>, some: set<Id>, back: set<Id>, given: set<Id>)
    requires more == some + back
    ensures more + given == some + given + back
  {
  }

  lemma ParentsGrown(records: seq<Record>, t: Record, id: Id)
    requires t.Node? && IsCriterion(Versions(records, id)) && Versions(records + [t], id) == Versions(records, id)
    ensures Parents(records + [t], id) == Parents(records, id) + Revived(records, t, OwnedByTask, id)
  {
    TargetsGrown(records, t, OwnedByTask, id);
    var label_, versions := OwnedByTask, Versions(records, id);
    AddToBoth(TargetsOf(records + [t], label_, id), TargetsOf(records, label_, id), Revived(records, t, label_, id),
              Given(versions[|versions| - 1].parentTaskId));
  }

  lemma DoneParentKept(records: seq<Record>, t: Record, id: Id)
    requires IsUndatedTask(t) && id != t.id
    requires IsCriterion(Versions(records, id)) && HasDoneParent(records, id)
    ensures IsCriterion(Versions(records + [t], id)) && HasDoneParent(records + [t], id)
  {
    LinksGrown(records, t, id);
    var p :| p in Parents(records, id) && HasDoneVersion(Versions(records, p));
    if p == t.id {
      var v :| v in Versions(records, p) && Decides(Versions(records, p), v) && IsDone(v.status);
      VersionsKept(records, t, v);
      UndatedLetsAllDecide(Versions(records + [t], p), t, v);
    } else {
      VersionsElsewhere(records, t, p);
    }
  }

  lemma UndatedLetsAllDecide(versions: seq<Record>, t: Record, v: Record)
    requires IsUndatedTask(t) && t in versions && v in versions && v.Node? && v.kind == Task && IsDone(v.status)
    ensures HasDoneVersion(versions)
  {
  }

  // A task version is never part of a proof, so no handle comes to pass.
  lemma PassingGrown(records: seq<Record>, t: Record, id: Id, h: Id)
    requires IsUndatedTask(t)
    ensures Resolver(records + [t], id)(h) == Passing <==> h != t.id && Resolver(records, id)(h) == Passing
  {
    if h == t.id {
      TaskProvesNothing(records, t);
      PassingExactly(id, Versions(records + [t], h));
    } else {
      VersionsElsewhere(records, t, h);
    }
  }

  lemma TaskProvesNothing(records: seq<Record>, t: Record)
    requires IsUndatedTask(t)
    ensures t in Versions(records + [t], t.id) && !Proves(t)
  {
  }

  // Nothing closes the criterion, and the version brings back a deleted edge that would
  // close it with a passing record.
  predicate BringsProof(records: seq<Record>, t: Record, id: Id) {
    exists i: nat :: i < |records| && Revives(records, t, i, ClosesAcceptanceCriterion, id)
      && ResolveHandle(id, Versions(records, records[i].target)) == Passing
  }

  ghost predicate EndsClaim(records: seq<Record>, t: Record, id: Id)
    requires IsCriterion(Versions(records, id))
  {
    Handles(records, id) == {} && BringsProof(records, t, id)
  }

  lemma OneRevived(records: seq<Record>, t: Record, i: nat, j: nat)
    requires i < |records| && j < |records| && IsRevived(records, t, i) && IsRevived(records, t, j)
    ensures i == j
  {
    assert Writes(records)[i].id == Writes(records)[j].id;
  }

  // The deleted edge would be all that closes it.
  lemma ProvenByRevival(records: seq<Record>, t: Record, id: Id)
    requires IsUndatedTask(t) && BringsProof(records, t, id)
    ensures var back := Revived(records, t, ClosesAcceptanceCriterion, id);
      back != {} && forall h :: h in back ==> Resolver(records + [t], id)(h) == Passing
  {
    var i: nat :| i < |records| && Revives(records, t, i, ClosesAcceptanceCriterion, id)
      && ResolveHandle(id, Versions(records, records[i].target)) == Passing;
    DeletedHasNone(records, t.id);
    PassingGrown(records, t, id, records[i].target);
    assert records[i].target in Revived(records, t, ClosesAcceptanceCriterion, id);
    forall h | h in Revived(records, t, ClosesAcceptanceCriterion, id) ensures h == records[i].target {
      var j :| 0 <= j < |records| && Revives(records, t, j, ClosesAcceptanceCriterion, id) && records[j].target == h;
      OneRevived(records, t, i, j);
    }
  }

  lemma RevivalIsProof(records: seq<Record>, t: Record, id: Id, h: Id)
    requires IsUndatedTask(t) && h in Revived(records, t, ClosesAcceptanceCriterion, id)
    requires Resolver(records + [t], id)(h) == Passing
    ensures BringsProof(records, t, id)
  {
    PassingGrown(records, t, id, h);
    var i: nat :| i < |records| && Revives(records, t, i, ClosesAcceptanceCriterion, id) && records[i].target == h;
  }

  lemma ProvenByRevivalExactly(records: seq<Record>, t: Record, id: Id)
    requires IsUndatedTask(t)
    ensures var back := Revived(records, t, ClosesAcceptanceCriterion, id);
      BringsProof(records, t, id) <==>
        back != {} && forall h :: h in back ==> Resolver(records + [t], id)(h) == Passing
  {
    var back := Revived(records, t, ClosesAcceptanceCriterion, id);
    if BringsProof(records, t, id) {
      ProvenByRevival(records, t, id);
    } else if h :| h in back && Resolver(records + [t], id)(h) == Passing {
      RevivalIsProof(records, t, id, h);
      assert false;
    }
  }

  // An unproven criterion becomes proven exactly so.
  lemma NewlyProvenExactly(records: seq<Record>, t: Record, row: Row, grown: Row)
    requires IsUndatedTask(t) && row.id == grown.id && row.id != t.id
    requires IsRowOf(records, row) && IsRowOf(records + [t], grown) && row.bucket != Proven
    ensures grown.bucket == Proven <==> EndsClaim(records, t, row.id)
  {
    var id := row.id;
    LinksGrown(records, t, id);
    GivesProven(Resolver(records, id), Handles(records, id), row.bucket);
    GivesProven(Resolver(records + [t], id), Handles(records + [t], id), grown.bucket);
    if Handles(records, id) == {} {
      ProvenByRevivalExactly(records, t, id);
    } else {
      var h :| h in Handles(records, id) && Resolver(records, id)(h) != Passing;
      PassingGrown(records, t, id, h);
      assert h in Handles(records + [t], id);
    }
  }

  // A new version under the criterion's own ID makes it something else.
  lemma OwnVersionEndsClaim(records: seq<Record>, t: Record, after: map<Id, Row>)
    requires IsUndatedTask(t) && IsCensus(records + [t], after)
    ensures t.id !in Claimed(after)
  {
    RewrittenIsLive(records, t);
    assert (records + [t])[..|records|] == records;
    var vs := Versions(records + [t], t.id);
    assert vs == VersionsIn(Writes(records + [t]), records, t.id) + [t];
  }

  // Appending an undated version of a task, whatever its status, keeps a criterion in the
  // claimed-done set, unless it is a version of the criterion itself or brings a proof back.
  lemma UndatedTaskKeepsClaims(records: seq<Record>, t: Record, before: map<Id, Row>, after: map<Id, Row>, id: Id)
    requires IsUndatedTask(t)
    requires IsCensus(records, before) && IsCensus(records + [t], after)
    requires id in Claimed(before)
    ensures id in Claimed(after) <==> id != t.id && !EndsClaim(records, t, id)
  {
    if id == t.id {
      OwnVersionEndsClaim(records, t, after);
    } else {
      DoneParentKept(records, t, id);
      NewlyProvenExactly(records, t, before[id], after[id]);
    }
  }

  // Such a store exists, for an edge may share the ID of a task: here a new version of the
  // task brings a deleted closing edge back, and with it the proof.
  lemma RevivedEdgeEndsClaim(c: Record, d: Record, v: Record, e: Record, k: Record, t: Record, before: Row, after: Row)
    requires IsRevival(c, d, v, e, k, t)
    requires before.id == c.id && IsRowOf([c, d, v, e, k], before)
    requires after.id == c.id && IsRowOf([c, d, v, e, k] + [t], after)
    ensures before.claimedDoneUnproven && !after.claimedDoneUnproven
  {
    NothingClosesBefore(c, d, v, e, k, t);
    ProofAfter(c, d, v, e, k, t);
    ClaimEnds([c, d, v, e, k], [c, d, v, e, k] + [t], v, before, after);
  }

  lemma ClaimEnds(a: seq<Record>, b: seq<Record>, v: Record, before: Row, after: Row)
    requires IsRowOf(a, before) && Handles(a, before.id) == {} && HasDoneParent(a, before.id)
    requires IsRowOf(b, after) && Handles(b, after.id) == {v.id} && Versions(b, v.id) == [v]
    requires Proves(v) && IsVerificationDomainId(v.id) && v.id != after.id
    ensures before.claimedDoneUnproven && !after.claimedDoneUnproven
  {
    UnclosedIsNotProven(a, before);
    ClosedByOne(b, v, after);
  }

  lemma UnclosedIsNotProven(records: seq<Record>, row: Row)
    requires IsRowOf(records, row) && Handles(records, row.id) == {}
    ensures row.bucket != Proven
  {
  }

  lemma ClosedByOne(records: seq<Record>, v: Record, row: Row)
    requires IsRowOf(records, row) && Handles(records, row.id) == {v.id} && Versions(records, v.id) == [v]
    requires Proves(v) && IsVerificationDomainId(v.id) && v.id != row.id
    ensures row.bucket == Proven
  {
    ProvenExactly(records, row);
  }

  // Criterion `c` of the done task `d`; a passing record `v`, and a tombstone `k` on the
  // edge `e` that would close `c` with it; a task `t` under the ID of the edge.
  predicate IsRevival(c: Record, d: Record, v: Record, e: Record, k: Record, t: Record) {
    && c.Node? && c.kind == AcceptanceCriterion && c.verificationLinkId == None && c.parentTaskId == Some(d.id)
    && d.Node? && d.kind == Task && IsDone(d.status)
    && v.Node? && Proves(v) && IsVerificationDomainId(v.id)
    && IsUndatedTask(t) && !t.temporal
    && e == Edge(t.id, ClosesAcceptanceCriterion, c.id, v.id, false) && k.Tombstone? && k.deletedId == t.id
    && c.id != d.id && c.id != v.id && c.id != t.id && d.id != v.id && d.id != t.id && v.id != t.id
  }

  lemma NothingClosesBefore(c: Record, d: Record, v: Record, e: Record, k: Record, t: Record)
    requires IsRevival(c, d, v, e, k, t)
    ensures var a := [c, d, v, e, k];
      IsCriterion(Versions(a, c.id)) && Handles(a, c.id) == {} && HasDoneParent(a, c.id)
  {
    var a := [c, d, v, e, k];
    NoCurrentEdge(c, d, v, e, k, t);
    OneLive(a, 0);
    OneLive(a, 1);
    assert TargetsOf(a, ClosesAcceptanceCriterion, c.id) == {};
    assert d.id in Parents(a, c.id);
    DoneAlone(d);
  }

  lemma DoneAlone(d: Record)
    requires d.Node? && d.kind == Task && IsDone(d.status)
    ensures HasDoneVersion([d])
  {
  }

  lemma NoCurrentEdge(c: Record, d: Record, v: Record, e: Record, k: Record, t: Record)
    requires IsRevival(c, d, v, e, k, t)
    ensures var a := [c, d, v, e, k]; forall i :: 0 <= i < |a| ==> !IsCurrentEdge(a, i)
  {
    var ws := Writes([c, d, v, e, k]);
    assert ws[4] == TombstoneOf(t.id) && ws[3] == EdgeWrite(t.id, false);
    assert forall i :: 0 <= i < |ws| && IsWriteOf(ws[i], t.id) ==> i == 3;
    assert Deleted(ws, t.id);
  }

  lemma ProofAfter(c: Record, d: Record, v: Record, e: Record, k: Record, t: Record)
    requires IsRevival(c, d, v, e, k, t)
    ensures var b := [c, d, v, e, k] + [t];
      IsCriterion(Versions(b, c.id)) && Handles(b, c.id) == {v.id} && Versions(b, v.id) == [v]
  {
    var a, b := [c, d, v, e, k], [c, d, v, e, k] + [t];
    OneLive(a, 0);
    OneLive(a, 2);
    VersionsElsewhere(a, t, c.id);
    VersionsElsewhere(a, t, v.id);
    RewrittenIsLive(a, t);
    OnlyEdge(b, 3);
    assert IsCurrentEdge(b, 3);
    assert TargetsOf(b, ClosesAcceptanceCriterion, c.id) == {v.id} by {
      assert forall i :: 0 <= i < |b| && IsCurrentEdge(b, i) ==> i == 3;
      assert b[3].target == v.id;
    }
  }

  lemma OnlyEdge(records: seq<Record>, i: nat)
    requires i < |records| && records[i].Edge? && forall j :: i < j < |records| ==> !records[j].Edge?
    ensures IsLatestEdgeVersion(Writes(records), i)
  {
  }

  // A node whose ID nothing else uses is its own only live version.
  lemma OneLive(records: seq<Record>, i: nat)
    requires i < |records| && records[i].Node?
    requires forall j :: 0 <= j < |records| && j != i ==> !IsWriteOf(WriteOf(records[j]), records[i].id)
    requires forall j :: 0 <= j < |records| ==> WriteOf(records[j]) != TombstoneOf(records[i].id)
    ensures Versions(records, records[i].id) == [records[i]]
  {
    var ws, id := Writes(records), records[i].id;
    assert !Deleted(ws, id);
    OneIn(ws, records, i, |records|);
    assert records[..|records|] == records;
  }

  lemma OneIn(ws: seq<Write>, records: seq<Record>, i: nat, n: nat)
    requires i < |records| && n <= |records| && records[i].Node? && !Deleted(ws, records[i].id)
    requires forall j :: 0 <= j < |records| && j != i ==> !IsWriteOf(WriteOf(records[j]), records[i].id)
    ensures VersionsIn(ws, records[..n], records[i].id) == if i < n then [records[i]] else []
  {
    if n > 0 {
      OneIn(ws, records, i, n - 1);
      assert records[..n][..n - 1] == records[..n - 1];
    }
  }
}
