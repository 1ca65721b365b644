/**
 The accounting of the citation audit (src/citation_audit.rs): one builder per
 workflow collects rows and diagnostics, the counts partition the rows, and the gate
 reads both.
 */
module CitationGate {
  import opened Wrappers
  import opened Order
  import opened Liveness
  import opened CitationClassify

  // ---------------------------------------------------------------- counting rows

  function CountIf(rows: seq<Row>, p: Row -> bool): (n: nat)
    ensures n <= |rows|
  {
    if rows == [] then 0 else CountIf(rows[..|rows| - 1], p) + if p(rows[|rows| - 1]) then 1 else 0
  }

  lemma {:induction false} CountConcat(a: seq<Row>, b: seq<Row>, p: Row -> bool)
    ensures CountIf(a + b, p) == CountIf(a, p) + CountIf(b, p)
  {
    if b == [] {
      assert a + b == a;
    } else {
      var front := b[..|b| - 1];
      CountConcat(a, front, p);
      assert (a + b)[..|a + b| - 1] == a + front;
    }
  }

  predicate Satisfied(row: Row) {
    row.status == Cited || row.status == AbsentHandleDocumented
  }

  predicate Excluded(row: Row) {
    row.status == ExcludedUnverified || row.status == ExcludedProtected
  }

  predicate HasRecordId(row: Row) {
    row.id.text != ""
  }

  predicate IsCited(row: Row) {
    row.status == Cited
  }

  predicate IsDocumented(row: Row) {
    row.status == AbsentHandleDocumented
  }

  predicate IsMissing(row: Row) {
    row.status == MissingRequiredHandle
  }

  datatype AggregateCounts = AggregateCounts(
    total: nat, withRecordId: nat, withPrimaryHandle: nat, absentRule: nat, missing: nat, excluded: nat)
  {
    function Add(other: AggregateCounts): AggregateCounts {
      AggregateCounts(total + other.total, withRecordId + other.withRecordId,
                      withPrimaryHandle + other.withPrimaryHandle, absentRule + other.absentRule,
                      missing + other.missing, excluded + other.excluded)
    }

    function CountRow(row: Row): AggregateCounts {
      var c := this.(total := total + 1);
      var c := if row.id.text != "" then c.(withRecordId := withRecordId + 1) else c;
      match row.status
      case Cited => c.(withPrimaryHandle := withPrimaryHandle + 1)
      case AbsentHandleDocumented => c.(absentRule := absentRule + 1)
      case MissingRequiredHandle => c.(missing := missing + 1)
      case ExcludedUnverified => c.(excluded := excluded + 1)
      case ExcludedProtected => c.(excluded := excluded + 1)
    }
  }

  const ZERO := AggregateCounts(0, 0, 0, 0, 0, 0)

  // The counts are those of the rows.
  ghost predicate Counts(c: AggregateCounts, rows: seq<Row>) {
    && c.total == |rows|
    && c.withRecordId == CountIf(rows, HasRecordId)
    && c.withPrimaryHandle == CountIf(rows, IsCited)
    && c.absentRule == CountIf(rows, IsDocumented)
    && c.missing == CountIf(rows, IsMissing)
    && c.excluded == CountIf(rows, Excluded)
  }

  // The four statuses partition the rows.
  lemma {:induction false} StatusesPartition(c: AggregateCounts, rows: seq<Row>)
    requires Counts(c, rows)
    ensures c.total == c.withPrimaryHandle + c.absentRule + c.missing + c.excluded
  {
    EveryRowOnce(rows);
  }

  lemma {:induction false} EveryRowOnce(rows: seq<Row>)
    ensures |rows| == CountIf(rows, IsCited) + CountIf(rows, IsDocumented)
                      + CountIf(rows, IsMissing) + CountIf(rows, Excluded)
  {
    if rows != [] { EveryRowOnce(rows[..|rows| - 1]); }
  }

  lemma {:induction false} CountsAdd(a: AggregateCounts, b: AggregateCounts, rows: seq<Row>, more: seq<Row>)
    requires Counts(a, rows) && Counts(b, more)
    ensures Counts(a.Add(b), rows + more)
  {
    var all := rows + more;
    AddOne(rows, more, all, HasRecordId, a.withRecordId, b.withRecordId);
    AddOne(rows, more, all, IsCited, a.withPrimaryHandle, b.withPrimaryHandle);
    AddOne(rows, more, all, IsDocumented, a.absentRule, b.absentRule);
    AddOne(rows, more, all, IsMissing, a.missing, b.missing);
    AddOne(rows, more, all, Excluded, a.excluded, b.excluded);
  }

  lemma {:induction false} AddOne(rows: seq<Row>, more: seq<Row>, all: seq<Row>, p: Row -> bool, m: nat, n: nat)
    requires all == rows + more && m == CountIf(rows, p) && n == CountIf(more, p)
    ensures m + n == CountIf(all, p)
  {
    CountConcat(rows, more, p);
  }

  function CountsOf(rows: seq<Row>): AggregateCounts {
    if rows == [] then ZERO else CountsOf(rows[..|rows| - 1]).CountRow(rows[|rows| - 1])
  }

  // Counting row by row gives, for each status, the number of rows that have it.
  lemma {:induction false} CountsAreExact(rows: seq<Row>)
    ensures Counts(CountsOf(rows), rows)
  {
    if rows != [] { CountsAreExact(rows[..|rows| - 1]); }
  }

  method CountRows(rows: seq<Row>) returns (c: AggregateCounts)
    ensures c == CountsOf(rows)
  {
    c := ZERO;
    for i := 0 to |rows|
      invariant c == CountsOf(rows[..i])
    {
      c := c.CountRow(rows[i]);
      assert rows[..i + 1][..i] == rows[..i];
    }
    assert rows[..|rows|] == rows;
  }

  // ---------------------------------------------------------------- the builder

  // Rows are kept per record ID and version.
  datatype Key = Key(identity: Id, temporal: string)

  datatype Diagnostic = Diagnostic(code: Code, source: Option<Id>, target: Option<Handle>, relation: Option<string>)

  datatype State = State(rows: map<Key, Row>, diagnostics: set<Diagnostic>, emptySeq: nat)

  const START := State(map[], {}, 0)

  function Digit(d: nat): char
    requires d < 10
  {
    "0123456789"[d]
  }

  function Decimal(n: nat): (s: string)
    ensures s != ""
  {
    if n < 10 then [Digit(n)] else Decimal(n / 10) + [Digit(n % 10)]
  }

  lemma DecimalInjective(m: nat, n: nat)
    requires Decimal(m) == Decimal(n)
    ensures m == n
  {
    var s, t := Decimal(m), Decimal(n);
    assert s[|s| - 1] == Digit(m % 10) && t[|t| - 1] == Digit(n % 10);
    assert (m >= 10 <==> |s| > 1) && (n >= 10 <==> |t| > 1);
    if m >= 10 {
      assert s[..|s| - 1] == Decimal(m / 10) && t[..|t| - 1] == Decimal(n / 10);
      DecimalInjective(m / 10, n / 10);
    }
  }

  // The identity under which the n-th row without an ID is kept.
  function Synthetic(n: nat): Id {
    Id("\0empty:" + Decimal(n))
  }

  lemma SyntheticInjective(m: nat, n: nat)
    requires Synthetic(m) == Synthetic(n)
    ensures m == n
  {
    var p := "\0empty:";
    assert (p + Decimal(m))[|p|..] == Decimal(m) && (p + Decimal(n))[|p|..] == Decimal(n);
    DecimalInjective(m, n);
  }

  function KeyOf(s: State, c: Classified, temporal: string): Key {
    Key(if c.row.id.text == "" then Synthetic(s.emptySeq + 1) else c.row.id, temporal)
  }

  function Pushed(s: State, c: Classified, temporal: string): State {
    var key := KeyOf(s, c, temporal);
    State(
      if key in s.rows then s.rows else s.rows[key := c.row],
      if c.diagnostic.Some? then s.diagnostics + {Diagnostic(c.diagnostic.value.0, Some(c.row.id), c.diagnostic.value.1, None)}
      else s.diagnostics,
      if c.row.id.text == "" then s.emptySeq + 1 else s.emptySeq)
  }

  ghost predicate Names(diagnostics: set<Diagnostic>, id: Id) {
    exists d :: d in diagnostics && d.source == Some(id)
  }

  // Every missing row is named by a diagnostic.
  ghost predicate Diagnosed(s: State) {
    forall k :: k in s.rows && s.rows[k].status == MissingRequiredHandle ==> Names(s.diagnostics, s.rows[k].id)
  }

  lemma PushDiagnosed(s: State, c: Classified, temporal: string)
    requires Diagnosed(s) && Accounted(c)
    ensures Diagnosed(Pushed(s, c, temporal))
  {
  }

  lemma NoteDiagnosed(s: State, d: Diagnostic)
    requires Diagnosed(s)
    ensures Diagnosed(s.(diagnostics := s.diagnostics + {d}))
  {
  }

  predicate KeyLe(a: Key, b: Key) {
    if a.identity == b.identity then StrLe(a.temporal, b.temporal) else StrLe(a.identity.text, b.identity.text)
  }

  lemma KeyLeAntisymmetric(a: Key, b: Key)
    requires KeyLe(a, b) && KeyLe(b, a)
    ensures a == b
  {
    if a.identity == b.identity {
      StrLeAntisymmetric(a.temporal, b.temporal);
    } else {
      StrLeAntisymmetric(a.identity.text, b.identity.text);
    }
  }

  lemma KeyLeTransitive(a: Key, b: Key, c: Key)
    requires KeyLe(a, b) && KeyLe(b, c)
    ensures KeyLe(a, c)
  {
    if a.identity == b.identity == c.identity {
      StrLeTransitive(a.temporal, b.temporal, c.temporal);
    } else if a.identity == c.identity {
      StrLeAntisymmetric(a.identity.text, b.identity.text);
    } else if a.identity != b.identity && b.identity != c.identity {
      StrLeTransitive(a.identity.text, b.identity.text, c.identity.text);
    }
  }

  lemma KeyLeTotal(a: Key, b: Key)
    ensures KeyLe(a, b) || KeyLe(b, a)
  {
    StrLeTotal(a.temporal, b.temporal);
    StrLeTotal(a.identity.text, b.identity.text);
  }

  predicate IsGreatest(k: Key, all: set<Key>) {
    k in all && forall j :: j in all ==> KeyLe(j, k)
  }

  lemma GreatestExists(all: set<Key>)
    requires all != {}
    ensures exists k :: IsGreatest(k, all)
  {
    var x :| x in all;
    KeyLeTotal(x, x);
    if all == {x} {
      assert IsGreatest(x, all);
    } else {
      GreatestExists(all - {x});
      var k :| IsGreatest(k, all - {x});
      KeyLeTotal(x, k);
      var g := if KeyLe(x, k) then k else x;
      forall j | j in all ensures KeyLe(j, g) {
        if j != x && g == x { KeyLeTransitive(j, k, x); }
      }
      assert IsGreatest(g, all);
    }
  }

  lemma GreatestUnique(all: set<Key>)
    ensures forall a, b :: IsGreatest(a, all) && IsGreatest(b, all) ==> a == b
  {
    forall a, b | IsGreatest(a, all) && IsGreatest(b, all) ensures a == b {
      KeyLeAntisymmetric(a, b);
    }
  }

  // The values of an ordered map in the order of its keys.
  function InKeyOrder(all: map<Key, Row>): (rows: seq<Row>)
    ensures |rows| == |all|
  {
    if all == map[] then []
    else
      GreatestExists(all.Keys);
      GreatestUnique(all.Keys);
      var k :| k in all && IsGreatest(k, all.Keys);
      InKeyOrder(all - {k}) + [all[k]]
  }

  // Every row is listed, and only rows of the map are.
  lemma {:induction false} ListsEveryRow(all: map<Key, Row>, r: Row)
    ensures r in InKeyOrder(all) <==> exists k :: k in all && all[k] == r
  {
    if all != map[] {
      GreatestExists(all.Keys);
      GreatestUnique(all.Keys);
      var g :| IsGreatest(g, all.Keys);
      ListsEveryRow(all - {g}, r);
      assert InKeyOrder(all) == InKeyOrder(all - {g}) + [all[g]];
      if k :| k in all && all[k] == r {
        assert k == g || k in all - {g};
      }
    }
  }

  datatype Report = Report(workflow: string, enabled: bool, counts: AggregateCounts, rows: seq<Row>)

  // The rows in key order, with their counts.
  function ReportOf(workflow: string, enabled: bool, all: map<Key, Row>): Report {
    Report(workflow, enabled, CountsOf(InKeyOrder(all)), InKeyOrder(all))
  }

  class WorkflowBuilder {
    const workflow: string
    const provenance: LogIndex
    var enabled: bool
    var rows: map<Key, Row>
    var diagnostics: set<Diagnostic>
    var emptySeq: nat

    ghost function Current(): State
      reads this
    {
      State(rows, diagnostics, emptySeq)
    }

    constructor (workflow: string, provenance: LogIndex, enabled: bool)
      ensures Current() == START && Diagnosed(Current())
      ensures this.workflow == workflow && this.provenance == provenance && this.enabled == enabled
    {
      this.workflow, this.provenance, this.enabled := workflow, provenance, enabled;
      rows, diagnostics, emptySeq := map[], {}, 0;
    }

    method AddDiagnostic(d: Diagnostic)
      modifies this`diagnostics
      ensures Current() == old(Current()).(diagnostics := old(diagnostics) + {d})
      ensures old(Diagnosed(Current())) ==> Diagnosed(Current())
    {
      if Diagnosed(Current()) { NoteDiagnosed(Current(), d); }
      diagnostics := diagnostics + {d};
    }

    method PushClassified(c: Classified, temporal: string)
      modifies this`rows, this`diagnostics, this`emptySeq
      ensures Current() == Pushed(old(Current()), c, temporal)
      ensures old(Diagnosed(Current())) && Accounted(c) ==> Diagnosed(Current())
    {
      if Diagnosed(Current()) && Accounted(c) { PushDiagnosed(Current(), c, temporal); }
      if c.diagnostic.Some? {
        AddDiagnostic(Diagnostic(c.diagnostic.value.0, Some(c.row.id), c.diagnostic.value.1, None));
      }
      var identity := c.row.id;
      if c.row.id.text == "" {
        emptySeq := emptySeq + 1;
        identity := Synthetic(emptySeq);
      }
      if Key(identity, temporal) !in rows {
        rows := rows[Key(identity, temporal) := c.row];
      }
    }

    method PushRecord(r: Record, temporal: string)
      modifies this`rows, this`diagnostics, this`emptySeq
      ensures Current() == Pushed(old(Current()), ClassifyProvenanced(provenance, r), temporal)
      ensures old(Diagnosed(Current())) ==> Diagnosed(Current())
    {
      EveryRowIsAccounted(provenance, r);
      PushClassified(ClassifyProvenanced(provenance, r), temporal);
    }

    // Callers exclude a row as unverified only.
    method PushExcluded(r: Record, temporal: string)
      modifies this`rows, this`diagnostics, this`emptySeq
      ensures var c := ClassifyRecord(r);
              Current() == Pushed(old(Current()), Classified(c.row.(status := ExcludedUnverified), None), temporal)
      ensures old(Diagnosed(Current())) ==> Diagnosed(Current())
    {
      var c := ClassifyRecord(r);
      c := Classified(c.row.(status := ExcludedUnverified), None);
      if Diagnosed(Current()) { ExcludedDiagnosed(Current(), c, temporal); }
      PushClassified(c, temporal);
    }

    method NoteRedaction(id: Id, carriesRedaction: bool)
      modifies this`diagnostics
      ensures rows == old(rows) && emptySeq == old(emptySeq)
      ensures diagnostics == old(diagnostics)
                             + if carriesRedaction then {Diagnostic(RedactedField, Some(id), None, None)} else {}
      ensures old(Diagnosed(Current())) ==> Diagnosed(Current())
    {
      if carriesRedaction { AddDiagnostic(Diagnostic(RedactedField, Some(id), None, None)); }
    }

    method Finish() returns (report: Report)
      ensures report == ReportOf(workflow, enabled, rows)
    {
      var listed := InKeyOrder(rows);
      var counts := CountRows(listed);
      report := Report(workflow, enabled, counts, listed);
    }
  }

  lemma ExcludedDiagnosed(s: State, c: Classified, temporal: string)
    requires Diagnosed(s) && Excluded(c.row) && c.diagnostic.None?
    ensures Diagnosed(Pushed(s, c, temporal))
  {
  }
}
