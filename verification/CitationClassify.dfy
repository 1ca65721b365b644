/**
 The citation status of one answer row (src/citation_audit.rs): what handle each
 trust class requires, and the index in which a runtime observation looks for its
 log source.
 */
module CitationClassify {
  import opened Wrappers
  import opened Liveness

  datatype Trust =
    | SourceFact | AgentAuthored | ProjectState | UserContext | Artifact | VerificationEvidence
    | RuntimeObservation | OtherTrust

  datatype CodeKind = File | DependencyDeclaration | Module | Repository | Commit | Change | Import | OtherKind

  datatype Span = Span(startLine: nat, endLine: nat)

  datatype Status = Cited | AbsentHandleDocumented | MissingRequiredHandle | ExcludedUnverified | ExcludedProtected

  datatype AbsentRule = NoSpanModuleLevel | NoSpanDriftTargetUnresolved

  datatype Handle =
    | Text(text: string)
    | Lines(path: string, span: Span)
    | Session(agent: string, session: string)
    | LogSourceAt(path: string, hash: string)

  datatype Row = Row(id: Id, trust: Trust, status: Status, handle: Option<Handle>, rule: Option<AbsentRule>)

  datatype Code =
    | MissingRecordId | MissingSpan | MissingHandle | ProtectedPayload | RedactedField | UnresolvedEvidenceLink
    | OtherCode(name: string)

  datatype Classified = Classified(row: Row, diagnostic: Option<(Code, Option<Handle>)>)

  // The provenance fields of each class, in the order they are tried.
  datatype Agent = Agent(
    sourceHandle: Option<string>, artifactPath: Option<string>, artifactHash: Option<string>,
    evidence: Option<seq<Option<string>>>, agentId: Option<string>, sessionId: Option<string>)

  datatype Project = Project(
    entityId: Option<string>, parentTaskId: Option<string>, sourceExternalLinkId: Option<string>,
    systemNativeId: Option<string>, url: Option<string>)

  datatype Hashes = Hashes(patchBytes: Option<string>, before: Option<string>, after: Option<string>)

  datatype Policy = Policy(
    approvalDecisionId: Option<string>, materializedRecordId: Option<string>, candidateId: Option<string>,
    supportingEvidence: Option<seq<Option<string>>>)

  datatype LogSource = LogSource(path: string, hash: string)

  datatype LogPayload = SourcePayload(source: LogSource) | OtherPayload

  // `protectedHandle` is what the scan for a protected or withheld payload finds.
  datatype Record =
    | Node(id: Id, trust: Trust, protectedHandle: Option<string>, kind: CodeKind, path: Option<string>,
           span: Option<Span>, agent: Agent, project: Project, hashes: Hashes, policy: Policy,
           log: Option<LogPayload>, temporal: bool)
    | Edge(id: Id, trust: Trust, protectedHandle: Option<string>, label_: EdgeLabel, source: Id, target: Id, temporal: bool)
    | Tombstone(id: Id, trust: Trust, protectedHandle: Option<string>, deletedId: Id)

  datatype EdgeLabel = CapturedFrom | Aggregates | OtherLabel

  // ---------------------------------------------------------------- handles

  // The first handle of a list that is present, not empty and not `own`.
  function FirstOther(handles: seq<Option<string>>, own: string): (r: Option<string>)
    ensures r.Some? ==> r in handles && r.value != "" && r.value != own
    ensures r.None? ==> forall h :: h in handles && h.Some? ==> h.value == "" || h.value == own
  {
    if handles == [] then None
    else if handles[0].Some? && handles[0].value != "" && handles[0].value != own then handles[0]
    else FirstOther(handles[1..], own)
  }

  function FirstNonEmpty(handles: seq<Option<string>>): (r: Option<string>)
    ensures r.Some? ==> r in handles && r.value != ""
    ensures r.None? ==> forall h :: h in handles && h.Some? ==> h.value == ""
  {
    FirstOther(handles, "")
  }

  function AsText(h: Option<string>): Option<Handle> {
    if h.Some? then Some(Text(h.value)) else None
  }

  function AgentExternalHandle(r: Record): Option<Handle> {
    if !r.Node? then None
    else
      var a := r.agent;
      var direct := FirstOther([a.sourceHandle, a.artifactPath, a.artifactHash], r.id.text);
      if direct.Some? then AsText(direct)
      else
        var linked := FirstOther(a.evidence.UnwrapOr([]), r.id.text);
        if linked.Some? then AsText(linked)
        else if a.agentId.UnwrapOr("") != "" && a.sessionId.UnwrapOr("") != "" then
          Some(Session(a.agentId.value, a.sessionId.value))
        else None
  }

  function ProjectHandle(r: Record): Option<Handle> {
    if !r.Node? then None
    else
      var p := r.project;
      AsText(FirstNonEmpty([p.entityId, p.parentTaskId, p.sourceExternalLinkId, p.systemNativeId, p.url]))
  }

  function ArtifactHandle(r: Record): Option<Handle> {
    if !r.Node? then None
    else
      var a, h := r.agent, r.hashes;
      AsText(FirstNonEmpty([a.sourceHandle, a.artifactPath, a.artifactHash, h.patchBytes, h.before, h.after]))
  }

  function UserContextHandle(r: Record): Option<Handle> {
    if !r.Node? then None
    else
      var p := r.policy;
      var direct := FirstNonEmpty([p.approvalDecisionId, p.materializedRecordId, p.candidateId]);
      if direct.Some? then AsText(direct) else AsText(FirstNonEmpty(p.supportingEvidence.UnwrapOr([])))
  }

  // A claim is never its own evidence: the handle names something else, or a session.
  lemma AgentHandleIsExternal(r: Record)
    requires AgentExternalHandle(r).Some?
    ensures var h := AgentExternalHandle(r).value;
            h.Session? || (h.Text? && h.text != r.id.text && h.text != "")
  {
  }

  // ---------------------------------------------------------------- classification

  function CitedRow(id: Id, trust: Trust, handle: Handle): Classified {
    Classified(Row(id, trust, Cited, Some(handle), None), None)
  }

  function MissingRow(id: Id, trust: Trust): Classified {
    Classified(Row(id, trust, MissingRequiredHandle, None, None), Some((MissingHandle, None)))
  }

  function CitedOrMissing(id: Id, trust: Trust, handle: Option<Handle>): Classified {
    if handle.Some? then CitedRow(id, trust, handle.value) else MissingRow(id, trust)
  }

  predicate IsSpanlessCodeKind(kind: CodeKind) {
    kind in {Module, Repository, Commit, Change, Import}
  }

  function ClassifyCodeHandle(id: Id, kind: CodeKind, path: Option<string>, span: Option<Span>, driftTarget: bool): Classified {
    if id.text == "" then
      Classified(Row(id, SourceFact, MissingRequiredHandle, AsText(path), None), Some((MissingRecordId, AsText(path))))
    else if path.Some? && span.Some? then CitedRow(id, SourceFact, Lines(path.value, span.value))
    else if path.Some? && (kind == File || kind == DependencyDeclaration) then CitedRow(id, SourceFact, Text(path.value))
    else if span.None? && driftTarget then
      Classified(Row(id, SourceFact, AbsentHandleDocumented, AsText(path), Some(NoSpanDriftTargetUnresolved)), None)
    else if span.None? && IsSpanlessCodeKind(kind) then
      Classified(Row(id, SourceFact, AbsentHandleDocumented, AsText(path), Some(NoSpanModuleLevel)), None)
    else
      Classified(Row(id, SourceFact, MissingRequiredHandle, AsText(path), None), Some((MissingSpan, AsText(path))))
  }

  function ClassifyRecord(r: Record): Classified {
    if r.protectedHandle.Some? then
      var handle := Some(Text(r.protectedHandle.value));
      Classified(Row(r.id, r.trust, ExcludedProtected, handle, None), Some((ProtectedPayload, handle)))
    else
      match r.trust
      case SourceFact =>
        if r.Node? then ClassifyCodeHandle(r.id, r.kind, r.path, r.span, false)
        else ClassifyCodeHandle(r.id, OtherKind, None, None, false)
      case AgentAuthored => CitedOrMissing(r.id, r.trust, AgentExternalHandle(r))
      case ProjectState => CitedOrMissing(r.id, r.trust, ProjectHandle(r))
      case UserContext => CitedOrMissing(r.id, r.trust, UserContextHandle(r))
      case Artifact => CitedOrMissing(r.id, r.trust, ArtifactHandle(r))
      case _ => if r.id.text == "" then MissingRow(r.id, r.trust) else CitedRow(r.id, r.trust, Text(r.id.text))
  }

  // ---------------------------------------------------------------- log provenance

  datatype LogIndex = LogIndex(sources: map<Id, LogSource>, capturedFrom: map<Id, seq<Id>>, aggregates: map<Id, seq<Id>>)

  function WriteOf(r: Record): Write {
    match r
    case Node(_, _, _, _, _, _, _, _, _, _, _, temporal) => NodeWrite(r.id, temporal)
    case Edge(_, _, _, _, _, _, temporal) => EdgeWrite(r.id, temporal)
    case Tombstone(_, _, _, deletedId) => TombstoneOf(deletedId)
  }

  function Writes(records: seq<Record>): (ws: seq<Write>)
    ensures |ws| == |records| && forall i :: 0 <= i < |records| ==> ws[i] == WriteOf(records[i])
  {
    seq(|records|, i requires 0 <= i < |records| => WriteOf(records[i]))
  }

  // A log source record that is visible: not deleted, or kept by history.
  predicate IsVisibleSource(writes: seq<Write>, r: Record) {
    IsSource(r) && (r.temporal || !Deleted(writes, r.id))
  }

  // The payload of the last visible source record with the ID.
  function LastSource(writes: seq<Write>, records: seq<Record>, id: Id): Option<LogSource> {
    if records == [] then None
    else
      var last := records[|records| - 1];
      if IsVisibleSource(writes, last) && last.id == id then Some(last.log.value.source)
      else LastSource(writes, records[..|records| - 1], id)
  }

  lemma {:induction false} LastSourceMeans(writes: seq<Write>, records: seq<Record>, id: Id, s: LogSource)
    ensures LastSource(writes, records, id) == Some(s) <==>
      exists i :: 0 <= i < |records| && IsVisibleSource(writes, records[i]) && records[i].id == id
        && records[i].log.value.source == s
        && forall j :: i < j < |records| ==> !(IsVisibleSource(writes, records[j]) && records[j].id == id)
  {
    if records != [] {
      var front, last := records[..|records| - 1], records[|records| - 1];
      LastSourceMeans(writes, front, id, s);
      assert forall i :: 0 <= i < |front| ==> records[i] == front[i];
      if IsVisibleSource(writes, last) && last.id == id { assert records[|front|] == last; }
    }
  }

  predicate GivesLink(writes: seq<Write>, r: Record, label_: EdgeLabel, from: Id, to: Id) {
    r.Edge? && r.label_ == label_ && r.source == from && r.target == to && !Deleted(writes, r.id)
  }

  function Targets(links: map<Id, seq<Id>>, id: Id): seq<Id> {
    if id in links then links[id] else []
  }

  function AddLink(links: map<Id, seq<Id>>, from: Id, to: Id): map<Id, seq<Id>> {
    links[from := Targets(links, from) + [to]]
  }

  // Some live edge makes the link.
  predicate Linked(writes: seq<Write>, records: seq<Record>, label_: EdgeLabel, from: Id, to: Id) {
    records != [] && (Linked(writes, records[..|records| - 1], label_, from, to)
                      || GivesLink(writes, records[|records| - 1], label_, from, to))
  }

  lemma {:induction false} LinkedMeans(writes: seq<Write>, records: seq<Record>, label_: EdgeLabel, from: Id, to: Id)
    ensures Linked(writes, records, label_, from, to) <==>
            exists r :: r in records && GivesLink(writes, r, label_, from, to)
  {
    if records != [] {
      var front, last := records[..|records| - 1], records[|records| - 1];
      LinkedMeans(writes, front, label_, from, to);
      assert records == front + [last];
    }
  }

  // The last visible payload of each source, and every link whose edge is not deleted.
  ghost predicate Mirrors(index: LogIndex, writes: seq<Write>, records: seq<Record>) {
    && (forall id :: SourceIn(index, id) == LastSource(writes, records, id))
    && (forall id, t :: t in Targets(index.capturedFrom, id) <==> Linked(writes, records, CapturedFrom, id, t))
    && (forall id, t :: t in Targets(index.aggregates, id) <==> Linked(writes, records, Aggregates, id, t))
  }

  function SourceIn(index: LogIndex, id: Id): Option<LogSource> {
    if id in index.sources then Some(index.sources[id]) else None
  }

  function AddToIndex(index: LogIndex, writes: seq<Write>, r: Record): LogIndex {
    match r
    case Node(id, _, _, _, _, _, _, _, _, _, Some(SourcePayload(s)), temporal) =>
      if temporal || !Deleted(writes, id) then index.(sources := index.sources[id := s]) else index
    case Edge(id, _, _, CapturedFrom, source, target, _) =>
      if Deleted(writes, id) then index else index.(capturedFrom := AddLink(index.capturedFrom, source, target))
    case Edge(id, _, _, Aggregates, source, target, _) =>
      if Deleted(writes, id) then index else index.(aggregates := AddLink(index.aggregates, source, target))
    case _ => index
  }

  // The index over the records, which lists links in the order of their edges.
  function IndexOf(writes: seq<Write>, records: seq<Record>): LogIndex {
    if records == [] then LogIndex(map[], map[], map[])
    else AddToIndex(IndexOf(writes, records[..|records| - 1]), writes, records[|records| - 1])
  }

  method BuildLogIndex(records: seq<Record>) returns (index: LogIndex)
    ensures index == IndexOf(Writes(records), records)
    ensures Mirrors(index, Writes(records), records)
  {
    var writes := Writes(records);
    index := LogIndex(map[], map[], map[]);
    for i := 0 to |records|
      invariant index == IndexOf(writes, records[..i])
    {
      index := AddToIndex(index, writes, records[i]);
      assert records[..i + 1][..i] == records[..i];
    }
    assert records[..|records|] == records;
    IndexMirrors(writes, records);
  }

  lemma {:induction false} IndexMirrors(writes: seq<Write>, records: seq<Record>)
    ensures Mirrors(IndexOf(writes, records), writes, records)
  {
    if records != [] {
      IndexMirrors(writes, records[..|records| - 1]);
      IndexGrows(IndexOf(writes, records[..|records| - 1]), writes, records);
    }
  }

  lemma IndexGrows(index: LogIndex, writes: seq<Write>, records: seq<Record>)
    requires records != [] && Mirrors(index, writes, records[..|records| - 1])
    ensures Mirrors(AddToIndex(index, writes, records[|records| - 1]), writes, records)
  {
    var grown := AddToIndex(index, writes, records[|records| - 1]);
    forall id ensures SourceIn(grown, id) == LastSource(writes, records, id) {
      assert SourceIn(index, id) == LastSource(writes, records[..|records| - 1], id);
    }
    forall id, t ensures t in Targets(grown.capturedFrom, id) <==> Linked(writes, records, CapturedFrom, id, t) {
      LinksGrow(index.capturedFrom, grown.capturedFrom, writes, records, CapturedFrom, id, t);
    }
    forall id, t ensures t in Targets(grown.aggregates, id) <==> Linked(writes, records, Aggregates, id, t) {
      LinksGrow(index.aggregates, grown.aggregates, writes, records, Aggregates, id, t);
    }
  }

  lemma LinksGrow(links: map<Id, seq<Id>>, grown: map<Id, seq<Id>>, writes: seq<Write>, records: seq<Record>,
                  label_: EdgeLabel, id: Id, t: Id)
    requires records != []
    requires t in Targets(links, id) <==> Linked(writes, records[..|records| - 1], label_, id, t)
    requires var r := records[|records| - 1];
      grown == if r.Edge? && r.label_ == label_ && !Deleted(writes, r.id) then AddLink(links, r.source, r.target) else links
    ensures t in Targets(grown, id) <==> Linked(writes, records, label_, id, t)
  {
  }

  // The first target that is a present source with a hash.
  function FirstHashed(index: LogIndex, targets: seq<Id>): (r: Option<LogSource>)
    ensures r.Some? <==> exists t :: t in targets && HasHash(index, t)
    ensures r.Some? ==> r.value.hash != "" && exists t :: t in targets && t in index.sources && index.sources[t] == r.value
  {
    if targets == [] then None
    else
      assert forall t :: t in targets <==> t == targets[0] || t in targets[1..];
      if HasHash(index, targets[0]) then Some(index.sources[targets[0]]) else FirstHashed(index, targets[1..])
  }

  predicate HasHash(index: LogIndex, t: Id) {
    t in index.sources && index.sources[t].hash != ""
  }

  function CapturedVia(index: LogIndex, id: Id): Option<LogSource> {
    FirstHashed(index, Targets(index.capturedFrom, id))
  }

  function FirstCaptured(index: LogIndex, signatures: seq<Id>): (r: Option<LogSource>)
    ensures r.Some? <==> exists s :: s in signatures && CapturedVia(index, s).Some?
    ensures r.Some? ==> exists s :: s in signatures && CapturedVia(index, s) == r
  {
    if signatures == [] then None
    else
      assert forall s :: s in signatures <==> s == signatures[0] || s in signatures[1..];
      var via := CapturedVia(index, signatures[0]);
      if via.Some? then via else FirstCaptured(index, signatures[1..])
  }

  function ResolveSource(index: LogIndex, id: Id): Option<LogSource> {
    var direct := CapturedVia(index, id);
    if direct.Some? then direct else FirstCaptured(index, Targets(index.aggregates, id))
  }

  predicate IsHexDigit(c: char) {
    '0' <= c <= '9' || 'a' <= c <= 'f' || 'A' <= c <= 'F'
  }

  // `log:v<digits>:<at least 16 hexadecimal digits>`.
  predicate IsWellFormedLogId(id: string) {
    |id| >= 5 && id[..5] == "log:v" && IsVersionAndHex(id[5..])
  }

  // Split at the first colon.
  predicate IsVersionAndHex(rest: string) {
    exists i :: 0 < i < |rest| && rest[i] == ':' && (forall k :: 0 <= k < i ==> '0' <= rest[k] <= '9')
      && |rest| - i - 1 >= 16 && forall k :: i < k < |rest| ==> IsHexDigit(rest[k])
  }

  predicate IsSource(r: Record) {
    r.Node? && r.log.Some? && r.log.value.SourcePayload?
  }

  predicate IsComplete(s: LogSource) {
    s.hash != "" && s.path != ""
  }

  function ClassifyLogHandle(index: LogIndex, r: Record): Classified {
    if !IsWellFormedLogId(r.id.text) then
      Classified(Row(r.id, RuntimeObservation, MissingRequiredHandle, None, None), Some((MissingRecordId, None)))
    else
      var found := if IsSource(r) then Some(r.log.value.source) else ResolveSource(index, r.id);
      if found.Some? && IsComplete(found.value) then
        CitedRow(r.id, RuntimeObservation, LogSourceAt(found.value.path, found.value.hash))
      else MissingRow(r.id, RuntimeObservation)
  }

  function ClassifyProvenanced(index: LogIndex, r: Record): Classified {
    var c := ClassifyRecord(r);
    if c.row.trust == RuntimeObservation && c.row.status != ExcludedProtected && c.row.status != ExcludedUnverified then
      ClassifyLogHandle(index, r)
    else c
  }

  // ---------------------------------------------------------------- what every row keeps

  // A missing row says why, under its own ID; a cited one has its handle; a documented
  // absence names its rule.
  ghost predicate Accounted(c: Classified) {
    && (c.row.status == MissingRequiredHandle ==> c.diagnostic.Some?)
    && (c.row.status == Cited ==> c.row.handle.Some? && c.row.rule.None?)
    && (c.row.status == AbsentHandleDocumented <==> c.row.rule.Some?)
  }

  lemma EveryRowIsAccounted(index: LogIndex, r: Record)
    ensures Accounted(ClassifyRecord(r)) && Accounted(ClassifyProvenanced(index, r))
    ensures ClassifyProvenanced(index, r).row.id == r.id && ClassifyProvenanced(index, r).row.trust == r.trust
  {
    RecordIsAccounted(r);
    LogIsAccounted(index, r);
  }

  lemma RecordIsAccounted(r: Record)
    ensures Accounted(ClassifyRecord(r)) && ClassifyRecord(r).row.id == r.id && ClassifyRecord(r).row.trust == r.trust
  {
    if r.protectedHandle.None? && r.trust == SourceFact {
      if r.Node? {
        CodeRowIsAccounted(r.id, r.kind, r.path, r.span, false);
      } else {
        CodeRowIsAccounted(r.id, OtherKind, None, None, false);
      }
    }
  }

  lemma LogIsAccounted(index: LogIndex, r: Record)
    ensures Accounted(ClassifyLogHandle(index, r))
    ensures ClassifyLogHandle(index, r).row.id == r.id && ClassifyLogHandle(index, r).row.trust == RuntimeObservation
  {
  }

  lemma CodeRowIsAccounted(id: Id, kind: CodeKind, path: Option<string>, span: Option<Span>, driftTarget: bool)
    ensures Accounted(ClassifyCodeHandle(id, kind, path, span, driftTarget))
    ensures ClassifyCodeHandle(id, kind, path, span, driftTarget).row.status == Cited <==>
      id.text != "" && path.Some? && (span.Some? || kind == File || kind == DependencyDeclaration)
  {
  }

  // A row is cited without a record ID exactly in the four classes that look at their
  // own handle only; everywhere else an empty ID fails the gate.
  lemma CitedWithoutId(index: LogIndex, r: Record)
    requires r.id.text == ""
    ensures ClassifyProvenanced(index, r).row.status == Cited <==>
      r.protectedHandle.None? && match r.trust
        case AgentAuthored => AgentExternalHandle(r).Some?
        case ProjectState => ProjectHandle(r).Some?
        case UserContext => UserContextHandle(r).Some?
        case Artifact => ArtifactHandle(r).Some?
        case _ => false
  {
  }
}
