/**
 The acceptance-criterion census (src/criteria_coverage.rs): which criteria are proven
 by the records that close them, and which are owned by a task that claims to be done.
 */
module CriteriaCoverage {
  import opened Wrappers
  import opened Liveness
  import opened Text

  datatype Kind =
    | AcceptanceCriterion | Task | Verification | CommandRun | TestRun
    | CIStatus | BenchmarkRun | CoverageReport | ProofResult | OtherKind

  datatype Label = ClosesAcceptanceCriterion | OwnedByTask | OtherLabel

  datatype Evidence = Evidence(artifactHash: Option<string>, artifactPath: Option<string>,
                               stdoutHash: Option<string>, stderrHash: Option<string>)

  // `instant` is the transaction time when it is present and parses.
  datatype Record =
    | Node(id: Id, kind: Kind, temporal: bool, status: Option<string>, exitCode: Option<int>, evidence: Evidence,
           parentTaskId: Option<Id>, verificationLinkId: Option<Id>, instant: Option<int>)
    | Edge(id: Id, label_: Label, source: Id, target: Id, temporal: bool)
    | Tombstone(id: Id, deletedId: Id)

  function WriteOf(r: Record): Write {
    match r
    case Node(id, _, temporal, _, _, _, _, _, _) => NodeWrite(id, temporal)
    case Edge(id, _, _, _, temporal) => EdgeWrite(id, temporal)
    case Tombstone(_, deletedId) => TombstoneOf(deletedId)
  }

  function Writes(records: seq<Record>): (ws: seq<Write>)
    ensures |ws| == |records| && forall i :: 0 <= i < |records| ==> ws[i] == WriteOf(records[i])
  {
    seq(|records|, i requires 0 <= i < |records| => WriteOf(records[i]))
  }

  // ---------------------------------------------------------------- statuses

  datatype Word = PassingWord | FailingWord | DoneWord | OtherWord

  // What a status says once trimmed and lowercased.
  function WordOf(status: string): Word {
    var s := Lower(Trim(status));
    if s in {"pass", "passed", "success"} then PassingWord
    else if s in {"fail", "failed", "failure", "error", "errored", "timeout", "timed_out"} then FailingWord
    else if s == "closed_completed" then DoneWord
    else OtherWord
  }

  predicate IsDone(status: Option<string>) {
    status.Some? && WordOf(status.value) == DoneWord
  }

  datatype Outcome = PassingOutcome | FailingOutcome | InconclusiveOutcome

  function VerificationOutcome(r: Record): Outcome {
    if !r.Node? then InconclusiveOutcome
    else if r.status.Some? then
      match WordOf(r.status.value)
      case PassingWord => PassingOutcome
      case FailingWord => FailingOutcome
      case _ => if r.exitCode.Some? && r.exitCode.value != 0 then FailingOutcome else InconclusiveOutcome
    else if r.exitCode == Some(0) then PassingOutcome
    else if r.exitCode.Some? then FailingOutcome
    else InconclusiveOutcome
  }

  // ---------------------------------------------------------------- one closing handle

  datatype Resolution =
    | Passing | Failing | Inconclusive | NotVerificationRecord | MissingEvidenceHandle | AmbiguousVersions | Unresolved

  // `verification:v<digits>:…`.
  predicate IsVerificationDomainId(id: Id) {
    var p := "verification:v";
    |id.text| >= |p| && id.text[..|p|] == p && IsVersioned(id.text[|p|..])
  }

  predicate IsVersioned(rest: string) {
    exists i :: 0 < i < |rest| && rest[i] == ':' && forall k :: 0 <= k < i ==> '0' <= rest[k] <= '9'
  }

  predicate IsVerificationDomainKind(r: Record) {
    r.Node? && r.kind in {CommandRun, Verification, TestRun, CIStatus, BenchmarkRun, CoverageReport, ProofResult}
  }

  predicate IsClosureTargetKind(r: Record) {
    r.Node? && r.kind in {Verification, CommandRun, TestRun}
  }

  predicate NonEmpty(s: Option<string>) {
    s.Some? && s.value != ""
  }

  predicate HasEvidenceHandle(r: Record) {
    r.Node? && (NonEmpty(r.evidence.artifactHash) || NonEmpty(r.evidence.artifactPath)
                || NonEmpty(r.evidence.stdoutHash) || NonEmpty(r.evidence.stderrHash))
  }

  function AsResolution(o: Outcome): Resolution {
    match o
    case PassingOutcome => Passing
    case FailingOutcome => Failing
    case InconclusiveOutcome => Inconclusive
  }

  function ResolveHandle(criterion: Id, versions: seq<Record>): Resolution {
    if versions == [] || !versions[|versions| - 1].Node? then Unresolved
    else
      var selfClosing := exists v :: v in versions && v.id == criterion;
      var verificationRecord :=
        && !selfClosing && IsVerificationDomainId(versions[0].id)
        && (forall v :: v in versions ==> IsVerificationDomainKind(v))
        && (forall v :: v in versions ==> IsClosureTargetKind(v));
      if !verificationRecord then NotVerificationRecord
      else if exists v :: v in versions && !HasEvidenceHandle(v) then MissingEvidenceHandle
      else
        var outcomes := set v | v in versions :: VerificationOutcome(v);
        if |outcomes| > 1 then AmbiguousVersions else AsResolution(VerificationOutcome(versions[0]))
  }

  datatype Bucket =
    | Proven | FailedEvidence | DanglingEvidence | NonVerificationEvidence | InconclusiveEvidence | Unverified

  function BucketFor(resolutions: seq<Resolution>): Bucket {
    if resolutions == [] then Unverified
    else if Failing in resolutions then FailedEvidence
    else if Unresolved in resolutions then DanglingEvidence
    else if NotVerificationRecord in resolutions || MissingEvidenceHandle in resolutions then NonVerificationEvidence
    else if AmbiguousVersions in resolutions || Inconclusive in resolutions then InconclusiveEvidence
    else Proven
  }

  // ---------------------------------------------------------------- the joins

  predicate IsLiveNode(writes: seq<Write>, r: Record, id: Id) {
    r.Node? && r.id == id && !Deleted(writes, id)
  }

  // The live versions of an ID, in the order they were written.
  function VersionsIn(writes: seq<Write>, records: seq<Record>, id: Id): (vs: seq<Record>)
    ensures forall r :: r in vs <==> r in records && IsLiveNode(writes, r, id)
  {
    if records == [] then []
    else
      var front, last := records[..|records| - 1], records[|records| - 1];
      assert records == front + [last];
      if IsLiveNode(writes, last, id) then VersionsIn(writes, front, id) + [last] else VersionsIn(writes, front, id)
  }

  function Versions(records: seq<Record>, id: Id): seq<Record> {
    VersionsIn(Writes(records), records, id)
  }

  // A live edge in its latest version.
  predicate IsCurrentEdge(records: seq<Record>, i: nat)
    requires i < |records|
  {
    records[i].Edge? && !Deleted(Writes(records), records[i].id) && IsLatestEdgeVersion(Writes(records), i)
  }

  // The targets of the current edges with a label and a source.
  ghost function TargetsOf(records: seq<Record>, label_: Label, source: Id): set<Id> {
    set i | 0 <= i < |records| && IsCurrentEdge(records, i) && records[i].label_ == label_ && records[i].source == source
      :: records[i].target
  }

  function Given(id: Option<Id>): set<Id> {
    if id.Some? then {id.value} else {}
  }

  // ---------------------------------------------------------------- the deciding statuses

  function TaskVersions(versions: seq<Record>): (vs: seq<Record>)
    ensures forall v :: v in vs <==> v in versions && v.Node? && v.kind == Task
  {
    if versions == [] then []
    else
      var front, last := versions[..|versions| - 1], versions[|versions| - 1];
      assert versions == front + [last];
      if last.Node? && last.kind == Task then TaskVersions(front) + [last] else TaskVersions(front)
  }

  // If every version of a task is stamped, the newest decide; otherwise all do.
  predicate Decides(versions: seq<Record>, v: Record) {
    var tasks := TaskVersions(versions);
    v in tasks && ((exists w :: w in tasks && w.instant.None?) || IsNewest(tasks, v))
  }

  predicate IsNewest(tasks: seq<Record>, v: Record) {
    v.Node? && v.instant.Some? && forall w :: w in tasks && w.Node? && w.instant.Some? ==> w.instant.value <= v.instant.value
  }

  predicate HasDoneVersion(versions: seq<Record>) {
    exists v :: v in versions && Decides(versions, v) && IsDone(v.status)
  }

  // ---------------------------------------------------------------- the census

  datatype Row = Row(id: Id, bucket: Bucket, claimedDoneUnproven: bool)

  predicate IsCriterion(versions: seq<Record>) {
    versions != [] && versions[|versions| - 1].Node? && versions[|versions| - 1].kind == AcceptanceCriterion
  }

  // What a criterion is judged on: the handles that close it and its candidate parents.
  ghost function Handles(records: seq<Record>, id: Id): set<Id>
    requires IsCriterion(Versions(records, id))
  {
    var versions := Versions(records, id);
    TargetsOf(records, ClosesAcceptanceCriterion, id) + Given(versions[|versions| - 1].verificationLinkId)
  }

  ghost function Parents(records: seq<Record>, id: Id): set<Id>
    requires IsCriterion(Versions(records, id))
  {
    var versions := Versions(records, id);
    TargetsOf(records, OwnedByTask, id) + Given(versions[|versions| - 1].parentTaskId)
  }

  // `resolutions` holds what the handles resolve to, and nothing else.
  ghost predicate Resolves(resolve: Id -> Resolution, handles: set<Id>, resolutions: seq<Resolution>) {
    && (forall h :: h in handles ==> resolve(h) in resolutions)
    && (forall r :: r in resolutions ==> exists h :: h in handles && resolve(h) == r)
    && (handles == {} <==> resolutions == [])
  }

  ghost function Resolver(records: seq<Record>, criterion: Id): Id -> Resolution {
    h => ResolveHandle(criterion, Versions(records, h))
  }

  ghost predicate HasBucket(records: seq<Record>, id: Id, bucket: Bucket)
    requires IsCriterion(Versions(records, id))
  {
    Gives(Resolver(records, id), Handles(records, id), bucket)
  }

  ghost predicate Gives(resolve: Id -> Resolution, handles: set<Id>, bucket: Bucket) {
    exists resolutions :: Resolves(resolve, handles, resolutions) && BucketFor(resolutions) == bucket
  }

  ghost predicate HasDoneParent(records: seq<Record>, id: Id)
    requires IsCriterion(Versions(records, id))
  {
    exists p :: p in Parents(records, id) && HasDoneVersion(Versions(records, p))
  }

  // The row the census must give for a criterion.
  ghost predicate IsRowOf(records: seq<Record>, row: Row) {
    && IsCriterion(Versions(records, row.id))
    && HasBucket(records, row.id, row.bucket)
    && (row.claimedDoneUnproven <==> HasDoneParent(records, row.id) && row.bucket != Proven)
  }

  type Joins = map<Id, set<Id>>

  function At(joins: Joins, id: Id): set<Id> {
    if id in joins then joins[id] else {}
  }

  ghost predicate IsVersionMap(versions: map<Id, seq<Record>>, writes: seq<Write>, records: seq<Record>) {
    && (forall id :: id in versions <==> VersionsIn(writes, records, id) != [])
    && (forall id :: id in versions ==> versions[id] == VersionsIn(writes, records, id))
  }

  method CollectVersions(records: seq<Record>) returns (versions: map<Id, seq<Record>>)
    ensures IsVersionMap(versions, Writes(records), records)
  {
    var writes := Writes(records);
    versions := map[];
    for i := 0 to |records|
      invariant IsVersionMap(versions, writes, records[..i])
    {
      assert records[..i + 1][..i] == records[..i];
      var r := records[i];
      if r.Node? && !Deleted(writes, r.id) {
        versions := versions[r.id := (if r.id in versions then versions[r.id] else []) + [r]];
      }
    }
    assert records[..|records|] == records;
  }

  // The join on one label, over the edges seen so far.
  ghost predicate IsJoin(joins: Joins, records: seq<Record>, n: nat, label_: Label)
    requires n <= |records|
  {
    forall s, t :: t in At(joins, s) <==>
      exists i :: 0 <= i < n && Joined(records, i, label_, s, t)
  }

  predicate Joined(records: seq<Record>, i: nat, label_: Label, source: Id, target: Id)
    requires i < |records|
  {
    IsCurrentEdge(records, i) && records[i].label_ == label_ && records[i].source == source && records[i].target == target
  }

  method CollectEdges(records: seq<Record>) returns (closing: Joins, owning: Joins)
    ensures IsJoin(closing, records, |records|, ClosesAcceptanceCriterion)
    ensures IsJoin(owning, records, |records|, OwnedByTask)
  {
    closing, owning := map[], map[];
    for i := 0 to |records|
      invariant IsJoin(closing, records, i, ClosesAcceptanceCriterion)
      invariant IsJoin(owning, records, i, OwnedByTask)
    {
      var closing0, owning0 := closing, owning;
      if IsCurrentEdge(records, i) {
        var e := records[i];
        if e.label_ == ClosesAcceptanceCriterion {
          closing := closing[e.source := At(closing, e.source) + {e.target}];
        } else if e.label_ == OwnedByTask {
          owning := owning[e.source := At(owning, e.source) + {e.target}];
        }
      }
      JoinGrows(closing0, closing, records, i, ClosesAcceptanceCriterion);
      JoinGrows(owning0, owning, records, i, OwnedByTask);
    }
  }

  lemma JoinGrows(before: Joins, joins: Joins, records: seq<Record>, i: nat, label_: Label)
    requires i < |records| && IsJoin(before, records, i, label_)
    requires joins == if IsCurrentEdge(records, i) && records[i].label_ == label_
                      then before[records[i].source := At(before, records[i].source) + {records[i].target}] else before
    ensures IsJoin(joins, records, i + 1, label_)
  {
    assert forall s, t :: t in At(joins, s) <==> t in At(before, s) || Joined(records, i, label_, s, t);
  }

  method ResolveAll(resolve: Id -> Resolution, handles: set<Id>) returns (resolutions: seq<Resolution>)
    ensures Resolves(resolve, handles, resolutions)
  {
    resolutions := [];
    var rest := handles;
    ghost var done: set<Id> := {};
    while rest != {}
      invariant done + rest == handles && done !! rest
      invariant Resolves(resolve, done, resolutions)
      decreases |rest|
    {
      var h :| h in rest;
      ResolvedOneMore(resolve, done, h, resolutions);
      MovedOne(handles, done, rest, h);
      resolutions, rest, done := resolutions + [resolve(h)], rest - {h}, done + {h};
    }
    assert done == handles;
  }

  lemma MovedOne(all: set<Id>, done: set<Id>, rest: set<Id>, h: Id)
    requires done + rest == all && done !! rest && h in rest
    ensures (done + {h}) + (rest - {h}) == all && done + {h} !! rest - {h} && |rest - {h}| < |rest|
  {
  }

  lemma ResolvedOneMore(resolve: Id -> Resolution, done: set<Id>, h: Id, resolutions: seq<Resolution>)
    requires Resolves(resolve, done, resolutions)
    ensures Resolves(resolve, done + {h}, resolutions + [resolve(h)])
  {
  }

  function LookUp(versions: map<Id, seq<Record>>, id: Id): seq<Record> {
    if id in versions then versions[id] else []
  }

  lemma LookUpIsVersions(versions: map<Id, seq<Record>>, records: seq<Record>, id: Id)
    requires IsVersionMap(versions, Writes(records), records)
    ensures LookUp(versions, id) == Versions(records, id)
  {
  }

  lemma SameResolver(f: Id -> Resolution, g: Id -> Resolution, handles: set<Id>, resolutions: seq<Resolution>)
    requires Resolves(f, handles, resolutions) && forall h :: f(h) == g(h)
    ensures Resolves(g, handles, resolutions)
  {
  }

  method FindDoneParent(versions: map<Id, seq<Record>>, parents: set<Id>, ghost records: seq<Record>) returns (found: bool)
    requires IsVersionMap(versions, Writes(records), records)
    ensures found <==> exists p :: p in parents && HasDoneVersion(Versions(records, p))
  {
    var rest := parents;
    while rest != {}
      invariant rest <= parents
      invariant forall p :: p in parents && p !in rest ==> !HasDoneVersion(Versions(records, p))
      decreases |rest|
    {
      var p :| p in rest;
      LookUpIsVersions(versions, records, p);
      if HasDoneVersion(LookUp(versions, p)) {
        return true;
      }
      rest := rest - {p};
    }
    found := false;
  }

  method JudgeBucket(versions: map<Id, seq<Record>>, id: Id, handles: set<Id>, ghost records: seq<Record>)
    returns (bucket: Bucket)
    requires IsVersionMap(versions, Writes(records), records)
    ensures Gives(Resolver(records, id), handles, bucket)
  {
    var resolve := (h: Id) => ResolveHandle(id, LookUp(versions, h));
    var resolutions := ResolveAll(resolve, handles);
    forall h ensures resolve(h) == Resolver(records, id)(h) { LookUpIsVersions(versions, records, h); }
    SameResolver(resolve, Resolver(records, id), handles, resolutions);
    bucket := BucketFor(resolutions);
  }

  // One criterion: bucket, done parent, row.
  method Judge(versions: map<Id, seq<Record>>, closing: Joins, owning: Joins, id: Id, ghost records: seq<Record>)
    returns (row: Row)
    requires IsVersionMap(versions, Writes(records), records)
    requires IsJoin(closing, records, |records|, ClosesAcceptanceCriterion) && IsJoin(owning, records, |records|, OwnedByTask)
    requires id in versions && IsCriterion(versions[id])
    ensures row.id == id && IsRowOf(records, row)
  {
    var record := versions[id][|versions[id]| - 1];
    LinksAre(versions, closing, owning, id, records);
    var bucket := JudgeBucket(versions, id, At(closing, id) + Given(record.verificationLinkId), records);
    var done := FindDoneParent(versions, At(owning, id) + Given(record.parentTaskId), records);
    RowIs(records, id, bucket, done);
    row := Row(id, bucket, done && bucket != Proven);
  }

  lemma LinksAre(versions: map<Id, seq<Record>>, closing: Joins, owning: Joins, id: Id, records: seq<Record>)
    requires IsVersionMap(versions, Writes(records), records)
    requires IsJoin(closing, records, |records|, ClosesAcceptanceCriterion) && IsJoin(owning, records, |records|, OwnedByTask)
    requires id in versions && IsCriterion(versions[id])
    ensures IsCriterion(Versions(records, id))
    ensures var record := versions[id][|versions[id]| - 1];
      && At(closing, id) + Given(record.verificationLinkId) == Handles(records, id)
      && At(owning, id) + Given(record.parentTaskId) == Parents(records, id)
  {
    JoinIsTargets(closing, records, ClosesAcceptanceCriterion, id);
    JoinIsTargets(owning, records, OwnedByTask, id);
  }

  lemma RowIs(records: seq<Record>, id: Id, bucket: Bucket, done: bool)
    requires IsCriterion(Versions(records, id)) && Gives(Resolver(records, id), Handles(records, id), bucket)
    requires done <==> exists p :: p in Parents(records, id) && HasDoneVersion(Versions(records, p))
    ensures IsRowOf(records, Row(id, bucket, done && bucket != Proven))
  {
  }

  lemma JoinIsTargets(joins: Joins, records: seq<Record>, label_: Label, id: Id)
    requires IsJoin(joins, records, |records|, label_)
    ensures At(joins, id) == TargetsOf(records, label_, id)
  {
    forall t ensures t in At(joins, id) <==> t in TargetsOf(records, label_, id) {
      if t in At(joins, id) {
        var i :| 0 <= i < |records| && Joined(records, i, label_, id, t);
        assert IsCurrentEdge(records, i) && records[i].target == t;
      }
      if t in TargetsOf(records, label_, id) {
        var i :| 0 <= i < |records| && IsCurrentEdge(records, i) && records[i].label_ == label_
          && records[i].source == id && records[i].target == t;
        assert Joined(records, i, label_, id, t);
      }
    }
  }

  // One row for every live criterion.
  ghost predicate IsCensus(records: seq<Record>, rows: map<Id, Row>) {
    && (forall id :: id in rows <==> IsCriterion(Versions(records, id)))
    && (forall id :: id in rows ==> rows[id].id == id && IsRowOf(records, rows[id]))
  }

  method TakeCensus(records: seq<Record>) returns (rows: map<Id, Row>)
    ensures IsCensus(records, rows)
  {
    var versions := CollectVersions(records);
    var closing, owning := CollectEdges(records);
    rows := map[];
    var rest := versions.Keys;
    while rest != {}
      invariant rest <= versions.Keys
      invariant forall id :: id in rows <==> id in versions && id !in rest && IsCriterion(versions[id])
      invariant forall id :: id in rows ==> rows[id].id == id && IsRowOf(records, rows[id])
      decreases |rest|
    {
      var id :| id in rest;
      if IsCriterion(versions[id]) {
        var row := Judge(versions, closing, owning, id, records);
        rows := rows[id := row];
      }
      rest := rest - {id};
    }
    forall id ensures id in rows <==> IsCriterion(Versions(records, id)) {
      assert id !in versions ==> Versions(records, id) == [];
    }
  }

  // ---------------------------------------------------------------- the gate

  ghost function InBucket(rows: map<Id, Row>, b: Bucket): set<Id> {
    set id | id in rows && rows[id].bucket == b
  }

  ghost function Claimed(rows: map<Id, Row>): set<Id> {
    set id | id in rows && rows[id].claimedDoneUnproven
  }

  datatype Report = Report(rows: map<Id, Row>, counts: map<Bucket, nat>, total: nat, proven: nat, claimed: nat, ok: bool)

  // The thresholds, on the counts: a ratio below the minimum, or too many claims.
  ghost predicate Passes(rows: map<Id, Row>, minProven: real, maxClaimed: nat) {
    && (|rows| > 0 ==> |InBucket(rows, Proven)| as real / |rows| as real >= minProven)
    && |Claimed(rows)| <= maxClaimed
  }

  ghost predicate CountsBuckets(counts: map<Bucket, nat>, claimed: nat, rows: map<Id, Row>) {
    (forall b :: b in counts && counts[b] == |InBucket(rows, b)|) && claimed == |Claimed(rows)|
  }

  method CountBuckets(rows: map<Id, Row>) returns (counts: map<Bucket, nat>, claimed: nat)
    ensures CountsBuckets(counts, claimed, rows)
  {
    counts := map[Proven := 0, FailedEvidence := 0, DanglingEvidence := 0, NonVerificationEvidence := 0,
                  InconclusiveEvidence := 0, Unverified := 0];
    claimed := 0;
    var rest := rows.Keys;
    ghost var done: map<Id, Row> := map[];
    forall b: Bucket ensures b in counts { match b case Proven => case _ => }
    CountNone(counts);
    while rest != {}
      invariant rest <= rows.Keys && done == rows - rest
      invariant CountsBuckets(counts, claimed, done)
      decreases |rest|
    {
      var id :| id in rest;
      var row := rows[id];
      CountOne(counts, claimed, done, id, row);
      counts := counts[row.bucket := counts[row.bucket] + 1];
      if row.claimedDoneUnproven { claimed := claimed + 1; }
      rest := rest - {id};
      done := done[id := row];
    }
    assert done == rows;
  }

  lemma CountNone(counts: map<Bucket, nat>)
    requires forall b :: b in counts ==> counts[b] == 0
    requires forall b: Bucket :: b in counts
    ensures CountsBuckets(counts, 0, map[])
  {
  }

  lemma CountOne(counts: map<Bucket, nat>, claimed: nat, done: map<Id, Row>, id: Id, row: Row)
    requires id !in done && CountsBuckets(counts, claimed, done)
    ensures CountsBuckets(counts[row.bucket := counts[row.bucket] + 1],
                          claimed + if row.claimedDoneUnproven then 1 else 0, done[id := row])
  {
    forall b ensures |InBucket(done[id := row], b)| == |InBucket(done, b)| + if row.bucket == b then 1 else 0 {
      BucketOneMore(done, id, row, b);
    }
    ClaimedOneMore(done, id, row);
  }

  lemma BucketOneMore(done: map<Id, Row>, id: Id, row: Row, b: Bucket)
    requires id !in done
    ensures |InBucket(done[id := row], b)| == |InBucket(done, b)| + if row.bucket == b then 1 else 0
  {
    var before, after := InBucket(done, b), InBucket(done[id := row], b);
    if row.bucket == b {
      assert after == before + {id} && id !in before;
    } else {
      assert after == before;
    }
  }

  lemma ClaimedOneMore(done: map<Id, Row>, id: Id, row: Row)
    requires id !in done
    ensures |Claimed(done[id := row])| == |Claimed(done)| + if row.claimedDoneUnproven then 1 else 0
  {
    var before, after := Claimed(done), Claimed(done[id := row]);
    if row.claimedDoneUnproven {
      assert after == before + {id} && id !in before;
    } else {
      assert after == before;
    }
  }

  method RunCriteriaCoverage(records: seq<Record>, minProven: real, maxClaimed: nat) returns (report: Report)
    ensures IsCensus(records, report.rows)
    ensures CountsBuckets(report.counts, report.claimed, report.rows)
    ensures report.total == |report.rows| && report.proven == |InBucket(report.rows, Proven)|
    ensures report.ok <==> Passes(report.rows, minProven, maxClaimed)
  {
    var rows := TakeCensus(records);
    var counts, claimed := CountBuckets(rows);
    var below := |rows| > 0 && counts[Proven] as real / |rows| as real < minProven;
    report := Report(rows, counts, |rows|, counts[Proven], claimed, !below && claimed <= maxClaimed);
  }
}
