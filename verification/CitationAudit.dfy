/**
 The gate of the citation audit and its accounting over whole runs
 (src/citation_audit.rs): no missing row goes undiagnosed, and which rows a builder
 keeps.
 */
module CitationAudit {
  import opened Liveness
  import opened CitationClassify
  import opened CitationGate

  // ---------------------------------------------------------------- the gate

  predicate NonCodeGated(t: Trust) {
    t in {AgentAuthored, ProjectState, Artifact, VerificationEvidence, UserContext}
  }

  function Sources(diagnostics: set<Diagnostic>): set<Id> {
    set d | d in diagnostics && d.source.Some? :: d.source.value
  }

  function AllRows(reports: seq<Report>): seq<Row> {
    if reports == [] then [] else AllRows(reports[..|reports| - 1]) + reports[|reports| - 1].rows
  }

  function Of(t: Trust): Row -> bool {
    (r: Row) => r.trust == t
  }

  function SatisfiedOf(t: Trust): Row -> bool {
    (r: Row) => r.trust == t && Satisfied(r)
  }

  function Unclassified(named: set<Id>): Row -> bool {
    (r: Row) => r.status == MissingRequiredHandle && r.id !in named
  }

  function GatedMissing(): Row -> bool {
    (r: Row) => r.status == MissingRequiredHandle && NonCodeGated(r.trust)
  }

  datatype Tally = Tally(codeTotal: nat, codeSatisfied: nat, logTotal: nat, logSatisfied: nat,
                         nonCodePass: bool, unclassified: nat)

  ghost predicate TalliesRows(t: Tally, rows: seq<Row>, named: set<Id>) {
    && t.codeTotal == CountIf(rows, Of(SourceFact)) && t.codeSatisfied == CountIf(rows, SatisfiedOf(SourceFact))
    && t.logTotal == CountIf(rows, Of(RuntimeObservation)) && t.logSatisfied == CountIf(rows, SatisfiedOf(RuntimeObservation))
    && (t.nonCodePass <==> CountIf(rows, GatedMissing()) == 0)
    && t.unclassified == CountIf(rows, Unclassified(named))
  }

  function TallyRow(t: Tally, row: Row, named: set<Id>): Tally {
    var t := if row.trust == SourceFact then
               t.(codeTotal := t.codeTotal + 1, codeSatisfied := t.codeSatisfied + if Satisfied(row) then 1 else 0) else t;
    var t := if row.trust == RuntimeObservation then
               t.(logTotal := t.logTotal + 1, logSatisfied := t.logSatisfied + if Satisfied(row) then 1 else 0) else t;
    if row.status == MissingRequiredHandle then
      var t := if NonCodeGated(row.trust) then t.(nonCodePass := false) else t;
      if row.id !in named then t.(unclassified := t.unclassified + 1) else t
    else t
  }

  lemma TallyGrows(t: Tally, rows: seq<Row>, row: Row, named: set<Id>)
    requires TalliesRows(t, rows, named)
    ensures TalliesRows(TallyRow(t, row, named), rows + [row], named)
  {
    CountOneMore(rows, row, Of(SourceFact));
    CountOneMore(rows, row, SatisfiedOf(SourceFact));
    CountOneMore(rows, row, Of(RuntimeObservation));
    CountOneMore(rows, row, SatisfiedOf(RuntimeObservation));
    CountOneMore(rows, row, GatedMissing());
    CountOneMore(rows, row, Unclassified(named));
  }

  lemma CountOneMore(rows: seq<Row>, row: Row, p: Row -> bool)
    ensures CountIf(rows + [row], p) == CountIf(rows, p) + if p(row) then 1 else 0
  {
  }

  datatype Outcome = Outcome(codeCompleteness: real, codePass: bool, nonCodePass: bool,
                             logCompleteness: real, logPass: bool, unclassified: nat)

  const EPSILON: real := 0.000000001

  function Ratio(satisfied: nat, total: nat): real {
    if total == 0 then 1.0 else satisfied as real / total as real
  }

  method EvaluateGate(reports: seq<Report>, diagnostics: set<Diagnostic>, minCode: real, minLog: real) returns (o: Outcome)
    ensures var rows := AllRows(reports);
      && o.codeCompleteness == Ratio(CountIf(rows, SatisfiedOf(SourceFact)), CountIf(rows, Of(SourceFact)))
      && o.logCompleteness == Ratio(CountIf(rows, SatisfiedOf(RuntimeObservation)), CountIf(rows, Of(RuntimeObservation)))
      && (o.codePass <==> o.codeCompleteness + EPSILON >= minCode)
      && (o.logPass <==> o.logCompleteness + EPSILON >= minLog)
      && (o.nonCodePass <==> CountIf(rows, GatedMissing()) == 0)
      && o.unclassified == CountIf(rows, Unclassified(Sources(diagnostics)))
  {
    var named := Sources(diagnostics);
    var t := Tally(0, 0, 0, 0, true, 0);
    for i := 0 to |reports|
      invariant TalliesRows(t, AllRows(reports[..i]), named)
    {
      ghost var before := AllRows(reports[..i]);
      var rows := reports[i].rows;
      assert before + rows[..0] == before;
      for j := 0 to |rows|
        invariant TalliesRows(t, before + rows[..j], named)
      {
        TallyGrows(t, before + rows[..j], rows[j], named);
        t := TallyRow(t, rows[j], named);
        assert before + rows[..j + 1] == before + rows[..j] + [rows[j]];
      }
      assert rows[..|rows|] == rows && reports[..i + 1][..i] == reports[..i];
    }
    assert reports[..|reports|] == reports;
    var code, log := Ratio(t.codeSatisfied, t.codeTotal), Ratio(t.logSatisfied, t.logTotal);
    o := Outcome(code, code + EPSILON >= minCode, t.nonCodePass, log, log + EPSILON >= minLog, t.unclassified);
  }

  // ---------------------------------------------------------------- the whole audit

  lemma FinishedIsNamed(b: State, diagnostics: set<Diagnostic>)
    requires Diagnosed(b) && b.diagnostics <= diagnostics
    ensures AllNamed(InKeyOrder(b.rows), diagnostics)
  {
    forall r | r in InKeyOrder(b.rows) && r.status == MissingRequiredHandle ensures r.id in Sources(diagnostics) {
      ListsEveryRow(b.rows, r);
      var k :| k in b.rows && b.rows[k] == r;
      NamedIsSource(b.diagnostics, diagnostics, r.id);
    }
  }

  lemma NamedIsSource(a: set<Diagnostic>, b: set<Diagnostic>, id: Id)
    requires Names(a, id) && a <= b
    ensures id in Sources(b)
  {
  }

  lemma NamedStays(rows: seq<Row>, a: set<Diagnostic>, b: set<Diagnostic>)
    requires AllNamed(rows, a) && a <= b
    ensures AllNamed(rows, b)
  {
  }

  lemma NoneUnclassified(rows: seq<Row>, named: set<Id>)
    requires forall r :: r in rows && r.status == MissingRequiredHandle ==> r.id in named
    ensures CountIf(rows, Unclassified(named)) == 0
  {
  }

  ghost predicate AllNamed(rows: seq<Row>, diagnostics: set<Diagnostic>) {
    forall r :: r in rows && r.status == MissingRequiredHandle ==> r.id in Sources(diagnostics)
  }

  // Whatever was pushed to the builders, no missing row reaches the gate without a
  // diagnostic, and the overall counts are those of all the rows.
  method RunAudit(builders: seq<WorkflowBuilder>, minCode: real, minLog: real)
    returns (reports: seq<Report>, overall: AggregateCounts, gate: Outcome, ok: bool)
    requires forall i :: 0 <= i < |builders| ==> Diagnosed(builders[i].Current())
    ensures |reports| == |builders|
    ensures forall i :: 0 <= i < |builders| ==> IsReportOf(reports[i], builders[i])
    ensures Counts(overall, AllRows(reports))
    ensures gate.unclassified == 0
    ensures ok <==> gate.codePass && gate.nonCodePass && gate.logPass
  {
    var diagnostics;
    reports, diagnostics := FinishAll(builders);
    overall := AddCounts(reports);
    NoneUnclassified(AllRows(reports), Sources(diagnostics));
    gate := EvaluateGate(reports, diagnostics, minCode, minLog);
    ok := gate.codePass && gate.nonCodePass && gate.logPass && gate.unclassified == 0;
  }

  method AddCounts(reports: seq<Report>) returns (overall: AggregateCounts)
    requires forall i :: 0 <= i < |reports| ==> reports[i].counts == CountsOf(reports[i].rows)
    ensures Counts(overall, AllRows(reports))
  {
    overall := ZERO;
    for i := 0 to |reports|
      invariant Counts(overall, AllRows(reports[..i]))
    {
      assert reports[..i + 1][..i] == reports[..i];
      CountsAreExact(reports[i].rows);
      CountsAdd(overall, reports[i].counts, AllRows(reports[..i]), reports[i].rows);
      overall := overall.Add(reports[i].counts);
    }
    assert reports[..|reports|] == reports;
  }

  ghost predicate IsReportOf(report: Report, b: WorkflowBuilder)
    reads b
  {
    report == ReportOf(b.workflow, b.enabled, b.rows)
  }

  method FinishAll(builders: seq<WorkflowBuilder>) returns (reports: seq<Report>, diagnostics: set<Diagnostic>)
    requires forall i :: 0 <= i < |builders| ==> Diagnosed(builders[i].Current())
    ensures |reports| == |builders|
    ensures forall i :: 0 <= i < |builders| ==> IsReportOf(reports[i], builders[i])
    ensures AllNamed(AllRows(reports), diagnostics)
  {
    reports, diagnostics := [], {};
    for i := 0 to |builders|
      invariant |reports| == i
      invariant forall j :: 0 <= j < i ==> IsReportOf(reports[j], builders[j])
      invariant AllNamed(AllRows(reports), diagnostics)
    {
      var report := builders[i].Finish();
      ReportAdded(reports, report, builders[i].Current(), diagnostics);
      reports, diagnostics := reports + [report], diagnostics + builders[i].diagnostics;
    }
  }

  lemma ReportAdded(reports: seq<Report>, report: Report, b: State, diagnostics: set<Diagnostic>)
    requires AllNamed(AllRows(reports), diagnostics) && Diagnosed(b) && report.rows == InKeyOrder(b.rows)
    ensures AllNamed(AllRows(reports + [report]), diagnostics + b.diagnostics)
  {
    NamedStays(AllRows(reports), diagnostics, diagnostics + b.diagnostics);
    FinishedIsNamed(b, diagnostics + b.diagnostics);
    assert (reports + [report])[..|reports|] == reports;
  }

  // ---------------------------------------------------------------- runs of one builder

  datatype Step = Push(c: Classified, temporal: string) | Note(d: Diagnostic)

  function After(steps: seq<Step>): State {
    if steps == [] then START
    else
      var s := After(steps[..|steps| - 1]);
      match steps[|steps| - 1]
      case Push(c, temporal) => Pushed(s, c, temporal)
      case Note(d) => s.(diagnostics := s.diagnostics + {d})
  }

  lemma {:induction false} RunDiagnosed(steps: seq<Step>)
    requires forall i :: 0 <= i < |steps| && steps[i].Push? ==> Accounted(steps[i].c)
    ensures Diagnosed(After(steps))
  {
    if steps != [] {
      var front, last := steps[..|steps| - 1], steps[|steps| - 1];
      RunDiagnosed(front);
      match last
      case Push(c, temporal) => PushDiagnosed(After(front), c, temporal);
      case Note(d) => NoteDiagnosed(After(front), d);
    }
  }

  // A row once kept is never replaced: the first classification of a version stands.
  lemma {:induction false} RowsStay(steps: seq<Step>, i: nat, k: Key)
    requires i <= |steps| && k in After(steps[..i]).rows
    ensures k in After(steps).rows && After(steps).rows[k] == After(steps[..i]).rows[k]
  {
    if i == |steps| {
      assert steps[..i] == steps;
    } else {
      assert steps[..|steps| - 1][..i] == steps[..i];
      RowsStay(steps[..|steps| - 1], i, k);
    }
  }

  predicate IsEmptyPush(step: Step) {
    step.Push? && step.c.row.id.text == ""
  }

  predicate IsRealPush(step: Step) {
    step.Push? && step.c.row.id.text != ""
  }

  function EmptyPushes(steps: seq<Step>): nat {
    if steps == [] then 0 else EmptyPushes(steps[..|steps| - 1]) + if IsEmptyPush(steps[|steps| - 1]) then 1 else 0
  }

  // The identity and version under which a push is kept: its own, or one made up.
  function KeyAt(steps: seq<Step>, i: nat): Key
    requires i < |steps| && steps[i].Push?
  {
    Key(if IsEmptyPush(steps[i]) then Synthetic(EmptyPushes(steps[..i]) + 1) else steps[i].c.row.id, steps[i].temporal)
  }

  // The keys made up for rows without an ID.
  function ReservedKeys(steps: seq<Step>): set<Key> {
    if steps == [] then {}
    else
      var n := |steps| - 1;
      ReservedKeys(steps[..n]) + if IsEmptyPush(steps[n]) then {KeyAt(steps, n)} else {}
  }

  // The versions of records with an ID.
  function RealKeys(steps: seq<Step>): set<Key> {
    if steps == [] then {}
    else
      var n := |steps| - 1;
      RealKeys(steps[..n]) + if IsRealPush(steps[n]) then {KeyAt(steps, n)} else {}
  }

  // No record with an ID has the identity and version of a row without one, whichever
  // of the two is pushed first.
  predicate NoCollision(steps: seq<Step>) {
    ReservedKeys(steps) !! RealKeys(steps)
  }

  // The kept keys are those two sets, and the rows under each come from a push of its kind.
  ghost predicate RowsFit(s: State, reserved: set<Key>, real_: set<Key>) {
    && s.rows.Keys == reserved + real_
    && forall k :: k in s.rows ==> if s.rows[k].id.text == "" then k in reserved else k in real_
  }

  lemma {:induction false} RowsAlwaysFit(steps: seq<Step>)
    ensures After(steps).emptySeq == EmptyPushes(steps)
    ensures RowsFit(After(steps), ReservedKeys(steps), RealKeys(steps))
  {
    if steps != [] {
      RowsAlwaysFit(steps[..|steps| - 1]);
    }
  }

  lemma {:induction false} ReservedAreNumbered(steps: seq<Step>)
    ensures |ReservedKeys(steps)| == EmptyPushes(steps)
    ensures forall k :: k in ReservedKeys(steps) ==> exists m :: 0 < m <= EmptyPushes(steps) && k.identity == Synthetic(m)
  {
    if steps != [] {
      var front, n := steps[..|steps| - 1], EmptyPushes(steps[..|steps| - 1]) + 1;
      ReservedAreNumbered(front);
      if IsEmptyPush(steps[|steps| - 1]) {
        NextIsFree(front, n, steps[|steps| - 1].temporal);
        assert 0 < n <= EmptyPushes(steps);
      }
    }
  }

  lemma NextIsFree(front: seq<Step>, n: nat, temporal: string)
    requires n == EmptyPushes(front) + 1
    requires forall k :: k in ReservedKeys(front) ==> exists m :: 0 < m < n && k.identity == Synthetic(m)
    ensures Key(Synthetic(n), temporal) !in ReservedKeys(front)
  {
    if Key(Synthetic(n), temporal) in ReservedKeys(front) {
      var m :| 0 < m < n && Synthetic(n) == Synthetic(m);
      SyntheticInjective(m, n);
    }
  }

  // The rows kept are the rows without an ID and the versions of the other records, all
  // of them exactly as long as none of these collides with one of those.
  lemma RowsAreCounted(steps: seq<Step>)
    ensures |After(steps).rows| <= EmptyPushes(steps) + |RealKeys(steps)|
    ensures |After(steps).rows| == EmptyPushes(steps) + |RealKeys(steps)| <==> NoCollision(steps)
  {
    RowsAlwaysFit(steps);
    ReservedAreNumbered(steps);
    UnionSize(ReservedKeys(steps), RealKeys(steps));
    assert |After(steps).rows| == |After(steps).rows.Keys|;
  }

  lemma UnionSize(a: set<Key>, b: set<Key>)
    ensures |a + b| + |a * b| == |a| + |b|
  {
    assert a + b == a + (b - a) && b == (a * b) + (b - a);
  }

  // The first push of its version: a row without an ID is a version of its own.
  predicate IsFirst(steps: seq<Step>, i: nat) {
    && i < |steps| && steps[i].Push?
    && (IsRealPush(steps[i]) ==> KeyAt(steps, i) !in RealKeys(steps[..i]))
  }

  // Its row is the one kept.
  predicate IsKept(steps: seq<Step>, i: nat)
    requires i < |steps| && steps[i].Push?
  {
    var rows := After(steps).rows;
    KeyAt(steps, i) in rows && rows[KeyAt(steps, i)] == steps[i].c.row
  }

  // The keys of the other kind in use before it.
  function TakenBefore(steps: seq<Step>, i: nat): set<Key>
    requires i < |steps|
  {
    if IsEmptyPush(steps[i]) then RealKeys(steps[..i]) else ReservedKeys(steps[..i])
  }

  // The row of a version is kept exactly when no earlier push of the other kind has its key.
  lemma VersionKeptExactly(steps: seq<Step>, i: nat)
    requires IsFirst(steps, i)
    ensures IsKept(steps, i) <==> KeyAt(steps, i) !in TakenBefore(steps, i)
  {
    var front, upTo, k := steps[..i], steps[..i + 1], KeyAt(steps, i);
    assert upTo[..i] == front;
    RowsAlwaysFit(front);
    ReservedAreNumbered(front);
    if IsEmptyPush(steps[i]) { NextIsFree(front, EmptyPushes(front) + 1, steps[i].temporal); }
    assert KeyOf(After(front), steps[i].c, steps[i].temporal) == k;
    RowsStay(steps, i + 1, k);
  }

  // Every version of a record, and every row without an ID, reaches the gate with the row
  // it was given first, exactly when nothing collides.
  lemma AllVersionsKeptExactly(steps: seq<Step>)
    ensures NoCollision(steps) <==> forall i: nat :: IsFirst(steps, i) ==> IsKept(steps, i)
  {
    if NoCollision(steps) {
      forall i: nat | IsFirst(steps, i) ensures IsKept(steps, i) {
        KeysGrow(steps, i);
        VersionKeptExactly(steps, i);
      }
    } else {
      var k :| k in ReservedKeys(steps) && k in RealKeys(steps);
      var e := ReservedAt(steps, k);
      var r := RealAt(steps, k);
      if e < r {
        KeysGrow(steps[..r], e);
        assert steps[..r][..e] == steps[..e];
        VersionKeptExactly(steps, r);
      } else {
        KeysGrow(steps[..e], r);
        assert steps[..e][..r] == steps[..r];
        VersionKeptExactly(steps, e);
      }
    }
  }

  // The keys of a prefix, and of each push, are keys of the whole.
  lemma {:induction false} KeysGrow(steps: seq<Step>, i: nat)
    requires i < |steps|
    ensures ReservedKeys(steps[..i]) <= ReservedKeys(steps) && RealKeys(steps[..i]) <= RealKeys(steps)
    ensures IsEmptyPush(steps[i]) ==> KeyAt(steps, i) in ReservedKeys(steps)
    ensures IsRealPush(steps[i]) ==> KeyAt(steps, i) in RealKeys(steps)
  {
    if i < |steps| - 1 {
      var front := steps[..|steps| - 1];
      KeysGrow(front, i);
      assert front[..i] == steps[..i];
    }
  }

  lemma {:induction false} ReservedAt(steps: seq<Step>, k: Key) returns (i: nat)
    requires k in ReservedKeys(steps)
    ensures i < |steps| && IsEmptyPush(steps[i]) && KeyAt(steps, i) == k
  {
    i := |steps| - 1;
    if k in ReservedKeys(steps[..i]) {
      var front := steps[..i];
      i := ReservedAt(front, k);
      assert front[..i] == steps[..i];
    }
  }

  lemma {:induction false} RealAt(steps: seq<Step>, k: Key) returns (i: nat)
    requires k in RealKeys(steps)
    ensures IsFirst(steps, i) && IsRealPush(steps[i]) && KeyAt(steps, i) == k
  {
    i := |steps| - 1;
    if k in RealKeys(steps[..i]) {
      var front := steps[..i];
      i := RealAt(front, k);
      assert front[..i] == steps[..i];
    }
  }

  // So without a collision every missing version is a row the gate sees.
  lemma MissingReachesGate(steps: seq<Step>, i: nat)
    requires NoCollision(steps) && IsFirst(steps, i) && steps[i].c.row.status == MissingRequiredHandle
    ensures steps[i].c.row in InKeyOrder(After(steps).rows)
  {
    AllVersionsKeptExactly(steps);
    ListsEveryRow(After(steps).rows, steps[i].c.row);
    assert IsKept(steps, i);
  }

  // A cited record with the ID reserved for the first row without one hides that row,
  // which is missing its handle, from the rows and so from the gate.
  lemma CollisionHidesMissingRow(cited: Classified, uncited: Classified)
    requires cited.row.id == Synthetic(1) && cited.row.status == Cited && cited.diagnostic.None?
    requires uncited.row.id.text == "" && uncited.row.status == MissingRequiredHandle
    ensures var s := After([Push(cited, ""), Push(uncited, "")]);
            forall k :: k in s.rows ==> s.rows[k].status == Cited
  {
    FirstOfTwoStays(cited, uncited);
  }

  // The other way round, a cited row without an ID hides a missing record with that ID.
  lemma EmptyRowHidesMissingRow(cited: Classified, uncited: Classified)
    requires cited.row.id.text == "" && cited.row.status == Cited && cited.diagnostic.None?
    requires uncited.row.id == Synthetic(1) && uncited.row.status == MissingRequiredHandle
    ensures var s := After([Push(cited, ""), Push(uncited, "")]);
            forall k :: k in s.rows ==> s.rows[k].status == Cited
  {
    FirstOfTwoStays(cited, uncited);
  }

  lemma FirstOfTwoStays(a: Classified, b: Classified)
    requires (a.row.id.text == "" && b.row.id == Synthetic(1)) || (a.row.id == Synthetic(1) && b.row.id.text == "")
    ensures After([Push(a, ""), Push(b, "")]).rows == map[Key(Synthetic(1), "") := a.row]
  {
    var steps := [Push(a, ""), Push(b, "")];
    assert steps[..1] == [Push(a, "")] && steps[..1][..0] == [];
    assert After(steps[..1]) == Pushed(START, a, "");
    assert Synthetic(1).text[0] == '\0';
    assert KeyOf(START, a, "") == KeyOf(After(steps[..1]), b, "") == Key(Synthetic(1), "");
  }

  // Verification evidence is cited by its own ID, so by one of the reserved form too.
  lemma EvidenceRow(index: LogIndex, r: Record)
    requires r.trust == VerificationEvidence && r.protectedHandle.None?
    ensures var c := ClassifyProvenanced(index, r);
      && c.row.id == r.id
      && if r.id.text == "" then c.row.status == MissingRequiredHandle else c.row.status == Cited && c.diagnostic.None?
  {
  }

  // An artifact is cited by a handle of its own, with or without an ID.
  lemma ArtifactRow(index: LogIndex, r: Record)
    requires r.trust == Artifact && r.protectedHandle.None?
    ensures var c := ClassifyProvenanced(index, r);
      && c.row.id == r.id
      && if ArtifactHandle(r).None? then c.row.status == MissingRequiredHandle else c.row.status == Cited && c.diagnostic.None?
  {
    if r.id.text == "" { CitedWithoutId(index, r); }
  }

  lemma SyntheticNotEmpty(n: nat)
    ensures Synthetic(n).text != ""
  {
    assert Synthetic(n).text[0] == '\0';
  }

  // Records that collide so: verification evidence with the reserved ID hides verification
  // evidence without one.
  lemma EvidenceHidesEvidence(index: LogIndex, a: Record, b: Record)
    requires a.trust == b.trust == VerificationEvidence && a.protectedHandle.None? && b.protectedHandle.None?
    requires a.id == Synthetic(1) && b.id.text == ""
    ensures ClassifyProvenanced(index, b).row.status == MissingRequiredHandle
    ensures var s := After([Push(ClassifyProvenanced(index, a), ""), Push(ClassifyProvenanced(index, b), "")]);
            forall k :: k in s.rows ==> s.rows[k].status == Cited
  {
    SyntheticNotEmpty(1);
    EvidenceRow(index, a);
    EvidenceRow(index, b);
    CollisionHidesMissingRow(ClassifyProvenanced(index, a), ClassifyProvenanced(index, b));
  }

  // And an artifact with a handle and no ID hides one with the reserved ID and no handle.
  lemma ArtifactHidesArtifact(index: LogIndex, a: Record, b: Record)
    requires a.trust == b.trust == Artifact && a.protectedHandle.None? && b.protectedHandle.None?
    requires a.id.text == "" && ArtifactHandle(a).Some? && b.id == Synthetic(1) && ArtifactHandle(b).None?
    ensures ClassifyProvenanced(index, b).row.status == MissingRequiredHandle
    ensures var s := After([Push(ClassifyProvenanced(index, a), ""), Push(ClassifyProvenanced(index, b), "")]);
            forall k :: k in s.rows ==> s.rows[k].status == Cited
  {
    ArtifactRow(index, a);
    ArtifactRow(index, b);
    EmptyRowHidesMissingRow(ClassifyProvenanced(index, a), ClassifyProvenanced(index, b));
  }
}
