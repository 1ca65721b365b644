/**
 Promotion decisions (src/decide.rs): a request on a candidate either is refused
 or yields the records to append, namely a prompt, a decision, and, when the
 decision approves, a durable policy record or the revoked copy of one.
 */
module Decide {
  import opened Wrappers
  import opened Text

  datatype NodeKind =
    | PromoteCandidate | PromotionPrompt | PromotionDecision
    | Preference | WorkflowRule | NamingDecision | Constraint
    | Observation | AgentTurn | Decision | OtherKind

  predicate IsPolicyKind(kind: NodeKind) {
    kind.Preference? || kind.WorkflowRule? || kind.NamingDecision? || kind.Constraint?
  }

  predicate IsEvidenceKind(kind: NodeKind) {
    kind.Observation? || kind.AgentTurn? || kind.Decision?
  }

  // A record ID: given by a writer, or minted here by hashing its parts. The
  // hash is taken to be injective, so a minted ID is its parts.
  datatype Id =
    | Given(name: string)
    | PromptId(candidate: Id, at: string, surface: Surface)
    | DecisionId(candidate: Id, prompt: Id, at: string, outcome: Outcome)
    | DurableId(kind: NodeKind, parts: seq<string>, decision: Id)
    | EdgeId(relation: EdgeKind, from: Id, to: Id)

  // Free strings of the source, as the vocabulary it compares them with.
  datatype Outcome = Approved | EditedThenApproved | Rejected | Deferred | Expired | UnknownOutcome(text: string)
  datatype Surface = Cli | Mcp | Web | OtherSurface | UnknownSurface(text: string)
  datatype RuleKind = PreferenceRule | WorkflowRuleRule | NamingRule | ConstraintRule | Revocation | UnknownRule(text: string)
  datatype Domain = AgentMemory | UserContextDomain | OtherDomain
  datatype Relation = ProposedBy | Contradicts | OtherRelation
  datatype Phase = PreCommit | PrePr | PreMerge | Runtime | AnyPhase | UnknownPhase(text: string)
  datatype Trigger = OnPreCommit | OnPrePr | OnPreMerge | OnPreCommand | OnPostCommand | UnknownTrigger(text: string)
  datatype EntityKind = CrateEntity | ModuleEntity | TypeEntity | FunctionEntity | FieldEntity | FeatureEntity
    | OtherEntity | UnknownEntity(text: string)
  datatype Level = Advisory | Blocking | UnknownLevel(text: string)
  datatype Quality = Verbatim | Summarized | ReferencedOnly | UnknownQuality(text: string)

  // A numeric string, parsed; NaN and garbage are both `Garbled`.
  datatype Decimal = Garbled | Number(value: real)

  datatype Scope = Scope(repo: Option<string>, pathGlob: Option<string>, language: Option<string>, phase: Option<Phase>)

  datatype EvidenceLink = EvidenceLink(domain: Domain, relation: Relation, confidence: Decimal, target: Option<Id>)

  datatype UserContext = UserContext(
    candidateId: Option<Id>,
    promptId: Option<Id>,
    outcome: Option<Outcome>,
    decidedAt: Option<string>,
    materializedRecordId: Option<Id>,
    approvalDecisionId: Option<Id>,
    activeFrom: Option<string>,
    activeTo: Option<string>,
    ruleKind: Option<RuleKind>,
    proposedRuleText: Option<string>,
    canonicalName: Option<string>,
    actionSummary: Option<string>,
    ruleText: Option<string>,
    editedRuleText: Option<string>,
    entityKind: Option<EntityKind>,
    enforcementLevel: Option<Level>,
    triggers: Option<seq<Trigger>>,
    scope: Option<Scope>,
    supporting: Option<seq<EvidenceLink>>,
    contradicting: Option<seq<EvidenceLink>>)

  const EMPTY_CONTEXT := UserContext(None, None, None, None, None, None, None, None, None, None,
                                     None, None, None, None, None, None, None, None, None, None)

  datatype Record =
    | Node(id: Id, kind: NodeKind, sessionId: Option<string>, confidence: Option<Decimal>,
           quality: Option<Quality>, supersededBy: Option<Id>, context: UserContext)
    | Edge(id: Id, relation: EdgeKind, source: Id, target: Id)
    | Tombstone(id: Id)

  datatype EdgeKind = PromptedFor | DecidedOn | MaterializedAs | RevokedBy | OtherEdge

  datatype Request = Request(
    candidateId: Id, outcome: Outcome, editedRuleText: Option<string>, decidedBy: string,
    surface: Surface, promptedTo: string, transactionTime: Option<string>)

  // Code outside this file: redaction, the debounce that suppresses candidates,
  // the audit trail of a durable record, the RFC 3339 parser, and the clock.
  datatype Env = Env(
    redact: string -> string,
    isRedacted: string -> bool,
    suppressed: (seq<Record>, Id) -> bool,
    hasTrail: (seq<Record>, Record) -> bool,
    parsesTime: string -> bool,
    now: string)

  datatype Refusal =
    | CandidateNotFound | NotACandidate | Suppressed | AlreadyDecided | BadTime | NoRuleKind | BadOutcome
    | BadSurface | BlankHandle | BadMetadata | BadSupport | BadContradiction | BadSupersession | BadRuleBody
    | BadEdit | BadRuleText | BadRevocation | BadMaterialization

  // ---------------------------------------------------------------- lookups

  // `records.iter().rfind(|r| r.id() == id)`
  function Latest(records: seq<Record>, id: Id): (r: Option<Record>)
    ensures r.Some? ==> r.value in records && r.value.id == id
    ensures r.None? ==> forall x :: x in records ==> x.id != id
    decreases |records|
  {
    if records == [] then None
    else
      var last := records[|records| - 1];
      if last.id == id then Some(last) else Latest(records[..|records| - 1], id)
  }

  predicate IsTerminal(o: Outcome) {
    o == Approved || o == EditedThenApproved || o == Rejected || o == Expired
  }

  predicate IsApproving(o: Outcome) {
    o == Approved || o == EditedThenApproved
  }

  predicate DecidesFinally(r: Record, candidate: Id) {
    && r.Node? && r.kind.PromotionDecision?
    && r.context.candidateId == Some(candidate)
    && r.context.outcome.Some? && IsTerminal(r.context.outcome.value)
  }

  ghost predicate HasTerminal(records: seq<Record>, candidate: Id) {
    exists i :: 0 <= i < |records| && DecidesFinally(records[i], candidate)
  }

  predicate IsCandidate(r: Option<Record>) {
    r.Some? && r.value.Node? && r.value.kind.PromoteCandidate?
  }

  predicate RejectsCandidate(r: Record, candidate: Id) {
    r.Node? && r.kind.PromotionDecision? && r.context.candidateId == Some(candidate) && r.context.outcome == Some(Rejected)
  }

  // ---------------------------------------------------------------- text

  predicate IsBlank(s: string) {
    Trim(s) == []
  }

  // ---------------------------------------------------------------- what a request must satisfy

  predicate InUnitInterval(d: Decimal) {
    d.Number? && 0.0 <= d.value <= 1.0
  }

  predicate EvidenceNode(records: seq<Record>, id: Id) {
    var r := Latest(records, id);
    && r.Some? && r.value.Node? && IsEvidenceKind(r.value.kind)
    && r.value.sessionId.Some? && r.value.sessionId.value != ""
  }

  predicate SupportingLink(records: seq<Record>, link: EvidenceLink) {
    && link.domain == AgentMemory && link.relation == ProposedBy
    && InUnitInterval(link.confidence)
    && link.target.Some? && EvidenceNode(records, link.target.value)
  }

  function SessionOf(records: seq<Record>, id: Id): string
    requires EvidenceNode(records, id)
  {
    Latest(records, id).value.sessionId.value
  }

  ghost function Targets(links: seq<EvidenceLink>): set<Id> {
    set l | l in links && l.target.Some? :: l.target.value
  }

  ghost function Sessions(records: seq<Record>, ids: set<Id>): set<string>
    requires forall id :: id in ids ==> EvidenceNode(records, id)
  {
    set id | id in ids :: SessionOf(records, id)
  }

  // At least three distinct evidence nodes, from at least two sessions.
  ghost predicate Supported(records: seq<Record>, links: seq<EvidenceLink>) {
    && (forall l :: l in links ==> SupportingLink(records, l))
    && |Targets(links)| >= 3
    && |Sessions(records, Targets(links))| >= 2
  }

  predicate ContradictingLink(records: seq<Record>, link: EvidenceLink) {
    && link.domain == UserContextDomain && link.relation == Contradicts
    && InUnitInterval(link.confidence)
    && link.target.Some?
    && var r := Latest(records, link.target.value);
       r.Some? && r.value.Node? && IsPolicyKind(r.value.kind)
  }

  ghost predicate Contradicted(records: seq<Record>, links: seq<EvidenceLink>) {
    forall l :: l in links ==> ContradictingLink(records, l)
  }

  ghost predicate SupersedesRejected(records: seq<Record>, supersededBy: Option<Id>) {
    supersededBy.Some? ==>
      && IsCandidate(Latest(records, supersededBy.value))
      && exists i :: 0 <= i < |records| && RejectsCandidate(records[i], supersededBy.value)
  }

  predicate MetadataOk(candidate: Record)
    requires candidate.Node?
  {
    var c := candidate.context;
    && c.proposedRuleText.Some? && !IsBlank(c.proposedRuleText.value)
    && candidate.confidence.Some? && InUnitInterval(candidate.confidence.value)
    && candidate.quality.Some? && !candidate.quality.value.UnknownQuality?
    && c.scope.Some? && (c.scope.value.phase.Some? ==> !c.scope.value.phase.value.UnknownPhase?)
  }

  predicate NonBlank(s: Option<string>) {
    s.Some? && !IsBlank(s.value)
  }

  predicate RuleBodyOk(c: UserContext, kind: RuleKind, outcome: Outcome) {
    match kind
    case WorkflowRuleRule =>
      && c.triggers.Some? && c.triggers.value != []
      && (forall i :: 0 <= i < |c.triggers.value| ==> !c.triggers.value[i].UnknownTrigger?)
      && NonBlank(c.actionSummary)
    case NamingRule =>
      && c.entityKind.Some? && !c.entityKind.value.UnknownEntity?
      && (outcome == Approved ==> NonBlank(c.canonicalName) && c.proposedRuleText.Some?
                                  && Trim(c.proposedRuleText.value) == Trim(c.canonicalName.value))
    case ConstraintRule =>
      c.enforcementLevel.Some? && !c.enforcementLevel.value.UnknownLevel?
    case _ => true
  }

  ghost predicate ApprovalOk(records: seq<Record>, candidate: Record, kind: RuleKind, outcome: Outcome)
    requires candidate.Node?
  {
    var c := candidate.context;
    && MetadataOk(candidate)
    && c.supporting.Some? && Supported(records, c.supporting.value)
    && c.contradicting.Some? && (kind == Revocation ==> c.contradicting.value != [])
    && Contradicted(records, c.contradicting.value)
    && SupersedesRejected(records, candidate.supersededBy)
    && RuleBodyOk(c, kind, outcome)
  }

  predicate EditOk(req: Request, kind: RuleKind) {
    req.outcome == EditedThenApproved ==> NonBlank(req.editedRuleText) && kind != Revocation
  }

  predicate FormOk(req: Request, env: Env) {
    && (req.transactionTime.Some? ==> env.parsesTime(req.transactionTime.value))
    && !req.outcome.UnknownOutcome? && !req.surface.UnknownSurface?
    && !IsBlank(req.promptedTo) && !IsBlank(req.decidedBy)
  }

  // What every outcome asks for, deferral included.
  ghost predicate Decidable(records: seq<Record>, req: Request, env: Env) {
    && IsCandidate(Latest(records, req.candidateId))
    && Latest(records, req.candidateId).value.context.ruleKind.Some?
    && !env.suppressed(records, req.candidateId)
    && !HasTerminal(records, req.candidateId)
    && FormOk(req, env)
  }

  // ---------------------------------------------------------------- what it generates

  function TimeOf(req: Request, env: Env): string {
    if req.transactionTime.Some? then req.transactionTime.value else env.now
  }

  function PromptIdOf(req: Request, env: Env): Id {
    PromptId(req.candidateId, TimeOf(req, env), req.surface)
  }

  function DecisionIdOf(req: Request, env: Env): Id {
    DecisionId(req.candidateId, PromptIdOf(req, env), TimeOf(req, env), req.outcome)
  }

  function PromptOf(req: Request, env: Env): Record {
    Node(PromptIdOf(req, env), PromotionPrompt, None, None, None, None,
         EMPTY_CONTEXT.(candidateId := Some(req.candidateId)))
  }

  function DecisionOf(req: Request, env: Env, materialized: Option<Id>, edited: Option<string>): Record {
    Node(DecisionIdOf(req, env), PromotionDecision, None, None, None, None,
         EMPTY_CONTEXT.(candidateId := Some(req.candidateId), promptId := Some(PromptIdOf(req, env)),
                        outcome := Some(req.outcome), decidedAt := Some(TimeOf(req, env)),
                        materializedRecordId := materialized, editedRuleText := edited))
  }

  function RedactOption(env: Env, s: Option<string>): Option<string> {
    if s.Some? then Some(env.redact(s.value)) else None
  }

  predicate Touched(env: Env, s: Option<string>) {
    s.Some? && env.isRedacted(env.redact(s.value))
  }

  // The candidate with its three prose fields redacted.
  function RedactCandidate(env: Env, candidate: Record): Record
    requires candidate.Node?
  {
    var c := candidate.context;
    candidate.(context := c.(proposedRuleText := RedactOption(env, c.proposedRuleText),
                             canonicalName := RedactOption(env, c.canonicalName),
                             actionSummary := RedactOption(env, c.actionSummary)))
  }

  predicate CandidateTouched(env: Env, c: UserContext) {
    Touched(env, c.proposedRuleText) || Touched(env, c.canonicalName) || Touched(env, c.actionSummary)
  }

  function MaterializedKind(kind: RuleKind): Option<NodeKind> {
    match kind
    case PreferenceRule => Some(Preference)
    case WorkflowRuleRule => Some(WorkflowRule)
    case NamingRule => Some(NamingDecision)
    case ConstraintRule => Some(Constraint)
    case _ => None
  }

  function EntityText(kind: Option<EntityKind>): string {
    match kind
    case None => "other"
    case Some(CrateEntity) => "crate"
    case Some(ModuleEntity) => "module"
    case Some(TypeEntity) => "type"
    case Some(FunctionEntity) => "function"
    case Some(FieldEntity) => "field"
    case Some(FeatureEntity) => "feature"
    case Some(OtherEntity) => "other"
    case Some(UnknownEntity(text)) => text
  }

  function PhaseText(phase: Phase): string {
    match phase
    case PreCommit => "pre_commit"
    case PrePr => "pre_pr"
    case PreMerge => "pre_merge"
    case Runtime => "runtime"
    case AnyPhase => "any"
    case UnknownPhase(text) => text
  }

  function JoinComma(parts: seq<string>): string {
    if parts == [] then "" else if |parts| == 1 then parts[0] else parts[0] + "," + JoinComma(parts[1..])
  }

  function CanonicalScope(s: Scope): string {
    JoinComma(
      (if s.repo.Some? then ["repo:" + s.repo.value] else [])
      + (if s.pathGlob.Some? then ["path_glob:" + s.pathGlob.value] else [])
      + (if s.language.Some? then ["language:" + s.language.value] else [])
      + (if s.phase.Some? then ["lifecycle_phase:" + PhaseText(s.phase.value)] else []))
  }

  // The durable record minted from a redacted candidate `c` and a redacted text.
  function Materialize(c: UserContext, kind: NodeKind, ruleKind: RuleKind, text: string, req: Request, env: Env): Record
    requires c.scope.Some?
  {
    var decision := DecisionIdOf(req, env);
    var parts := (if kind.NamingDecision? then [EntityText(c.entityKind)] else []) + [text, CanonicalScope(c.scope.value)];
    Node(DurableId(kind, parts, decision), kind, None, None, None, None,
         EMPTY_CONTEXT.(
           scope := c.scope, approvalDecisionId := Some(decision), activeFrom := Some(TimeOf(req, env)),
           ruleKind := Some(ruleKind), ruleText := Some(text),
           triggers := if kind.WorkflowRule? then c.triggers else None,
           actionSummary := if kind.WorkflowRule? then RedactOption(env, c.actionSummary) else None,
           entityKind := if kind.NamingDecision? then c.entityKind else None,
           enforcementLevel := if kind.Constraint? then c.enforcementLevel else None))
  }

  // The first contradicting target, else the first supporting link into user context.
  function RevocationTarget(c: UserContext): Option<Id> {
    if c.contradicting.Some? && c.contradicting.value != [] && c.contradicting.value[0].target.Some?
    then c.contradicting.value[0].target
    else if c.supporting.Some? then FirstUserContextTarget(c.supporting.value) else None
  }

  function FirstUserContextTarget(links: seq<EvidenceLink>): Option<Id> {
    if links == [] then None
    else if links[0].domain == UserContextDomain then links[0].target
    else FirstUserContextTarget(links[1..])
  }

  predicate IsRevokedCopy(r: Record, id: Id) {
    r.id == id && r.Node? && r.context.activeTo.Some?
  }

  predicate IsActiveCopy(r: Record, id: Id) {
    r.id == id && r.Node? && r.context.activeTo.None?
  }

  // The first active copy, when no copy has been revoked.
  function FirstActive(records: seq<Record>, id: Id): (r: Option<Record>)
    ensures r.Some? ==> r.value in records && IsActiveCopy(r.value, id)
    ensures r.None? <==> forall i :: 0 <= i < |records| ==> !IsActiveCopy(records[i], id)
  {
    if records == [] then None
    else if IsActiveCopy(records[0], id) then Some(records[0])
    else FirstActive(records[1..], id)
  }

  ghost predicate Revocable(records: seq<Record>, id: Id, env: Env) {
    && (forall i :: 0 <= i < |records| ==> !IsRevokedCopy(records[i], id))
    && var original := FirstActive(records, id);
       original.Some? && IsPolicyKind(original.value.kind) && env.hasTrail(records, original.value)
  }

  function Revoke(original: Record, at: string): Record
    requires original.Node?
  {
    original.(context := original.context.(activeTo := Some(at)))
  }

  function RuleTextOf(req: Request, redacted: UserContext): Option<string> {
    if req.outcome == EditedThenApproved then req.editedRuleText else redacted.proposedRuleText
  }

  // The durable record an approval adds: a new one, or a revoked copy.
  ghost predicate Adds(records: seq<Record>, req: Request, env: Env, candidate: Record, durable: Record)
    requires candidate.Node?
  {
    var c := RedactCandidate(env, candidate).context;
    var kind := c.ruleKind;
    && c.scope.Some? && kind.Some?
    && NonBlank(RuleTextOf(req, c))
    && if kind.value == Revocation then
         && RevocationTarget(c).Some? && Revocable(records, RevocationTarget(c).value, env)
         && durable == Revoke(FirstActive(records, RevocationTarget(c).value).value, TimeOf(req, env))
       else
         && MaterializedKind(kind.value).Some?
         && durable == Materialize(c, MaterializedKind(kind.value).value, kind.value,
                                   env.redact(RuleTextOf(req, c).value), req, env)
  }

  // The prompt, the durable record, the candidate if redaction changed it, the decision.
  function Appended(req: Request, env: Env, candidate: Record, durable: Record): seq<Record>
    requires candidate.Node?
  {
    [PromptOf(req, env), durable]
    + (if CandidateTouched(env, candidate.context) then [RedactCandidate(env, candidate)] else [])
    + [DecisionOf(req, env, Some(durable.id),
                  if req.outcome == EditedThenApproved then RedactOption(env, req.editedRuleText) else None)]
  }

  // `added` is what an accepted request appends.
  ghost predicate Generates(records: seq<Record>, req: Request, env: Env, added: seq<Record>) {
    && Decidable(records, req, env)
    && var candidate := Latest(records, req.candidateId).value;
       && EditOk(req, candidate.context.ruleKind.value)
       && if IsApproving(req.outcome) then Approves(records, req, env, candidate, added)
          else added == [PromptOf(req, env), DecisionOf(req, env, None, None)]
  }

  ghost predicate Approves(records: seq<Record>, req: Request, env: Env, candidate: Record, added: seq<Record>)
    requires candidate.Node? && candidate.context.ruleKind.Some?
  {
    && ApprovalOk(records, candidate, candidate.context.ruleKind.value, req.outcome)
    && |added| >= 2
    && Adds(records, req, env, candidate, added[1])
    && added == Appended(req, env, candidate, added[1])
  }

  // ---------------------------------------------------------------- the code

  method FindTerminal(records: seq<Record>, candidate: Id) returns (found: bool)
    ensures found <==> HasTerminal(records, candidate)
  {
    for i := 0 to |records|
      invariant forall j :: 0 <= j < i ==> !DecidesFinally(records[j], candidate)
    {
      if DecidesFinally(records[i], candidate) {
        return true;
      }
    }
    return false;
  }

  method CheckSupport(records: seq<Record>, links: seq<EvidenceLink>) returns (ok: bool)
    ensures ok <==> Supported(records, links)
  {
    var targets: set<Id>, sessions: set<string> := {}, {};
    for i := 0 to |links|
      invariant forall j :: 0 <= j < i ==> SupportingLink(records, links[j])
      invariant targets == Targets(links[..i])
      invariant forall id :: id in targets ==> EvidenceNode(records, id)
      invariant sessions == Sessions(records, targets)
    {
      var link := links[i];
      assert link in links;
      if !SupportingLink(records, link) {
        return false;
      }
      var target := link.target.value;
      assert links[..i + 1] == links[..i] + [link];
      assert Targets(links[..i + 1]) == Targets(links[..i]) + {target};
      if target !in targets {
        targets := targets + {target};
        sessions := sessions + {SessionOf(records, target)};
      }
    }
    assert links[..|links|] == links;
    return |targets| >= 3 && |sessions| >= 2;
  }

  method CheckContradictions(records: seq<Record>, links: seq<EvidenceLink>) returns (ok: bool)
    ensures ok <==> Contradicted(records, links)
  {
    for i := 0 to |links|
      invariant forall j :: 0 <= j < i ==> ContradictingLink(records, links[j])
    {
      assert links[i] in links;
      if !ContradictingLink(records, links[i]) {
        return false;
      }
    }
    return true;
  }

  method CheckSupersession(records: seq<Record>, supersededBy: Option<Id>) returns (ok: bool)
    ensures ok <==> SupersedesRejected(records, supersededBy)
  {
    if supersededBy.None? {
      return true;
    }
    if !IsCandidate(Latest(records, supersededBy.value)) {
      return false;
    }
    for i := 0 to |records|
      invariant forall j :: 0 <= j < i ==> !RejectsCandidate(records[j], supersededBy.value)
    {
      if RejectsCandidate(records[i], supersededBy.value) {
        return true;
      }
    }
    return false;
  }

  method CheckApproval(records: seq<Record>, candidate: Record, kind: RuleKind, outcome: Outcome)
    returns (refusal: Option<Refusal>)
    requires candidate.Node?
    ensures refusal.None? <==> ApprovalOk(records, candidate, kind, outcome)
  {
    var c := candidate.context;
    if !MetadataOk(candidate) {
      return Some(BadMetadata);
    }
    if c.supporting.None? {
      return Some(BadSupport);
    }
    var ok := CheckSupport(records, c.supporting.value);
    if !ok {
      return Some(BadSupport);
    }
    if c.contradicting.None? || (kind == Revocation && c.contradicting.value == []) {
      return Some(BadContradiction);
    }
    ok := CheckContradictions(records, c.contradicting.value);
    if !ok {
      return Some(BadContradiction);
    }
    ok := CheckSupersession(records, candidate.supersededBy);
    if !ok {
      return Some(BadSupersession);
    }
    return if RuleBodyOk(c, kind, outcome) then None else Some(BadRuleBody);
  }

  method FindRevocable(records: seq<Record>, id: Id, env: Env) returns (original: Option<Record>)
    ensures original.Some? <==> Revocable(records, id, env)
    ensures original.Some? ==> original == FirstActive(records, id)
  {
    for i := 0 to |records|
      invariant forall j :: 0 <= j < i ==> !IsRevokedCopy(records[j], id)
    {
      if IsRevokedCopy(records[i], id) {
        return None;
      }
    }
    original := FirstActive(records, id);
    if original.Some? && !(IsPolicyKind(original.value.kind) && env.hasTrail(records, original.value)) {
      original := None;
    }
  }

  method AddDurable(records: seq<Record>, req: Request, env: Env, candidate: Record)
    returns (durable: Result<Record, Refusal>)
    requires candidate.Node? && candidate.context.ruleKind.Some?
    ensures durable.Ok? ==> Adds(records, req, env, candidate, durable.value)
    ensures durable.Err? ==> forall d :: !Adds(records, req, env, candidate, d)
  {
    var c := RedactCandidate(env, candidate).context;
    var text := RuleTextOf(req, c);
    if !NonBlank(text) {
      return Err(BadRuleText);
    }
    if c.scope.None? {
      return Err(BadMetadata);
    }
    if c.ruleKind.value == Revocation {
      var target := RevocationTarget(c);
      if target.None? {
        return Err(BadRevocation);
      }
      var original := FindRevocable(records, target.value, env);
      if original.None? {
        return Err(BadRevocation);
      }
      return Ok(Revoke(original.value, TimeOf(req, env)));
    }
    var kind := MaterializedKind(c.ruleKind.value);
    if kind.None? {
      return Err(BadMaterialization);
    }
    return Ok(Materialize(c, kind.value, c.ruleKind.value, env.redact(text.value), req, env));
  }

  // The checks made before the outcome matters; yields the candidate.
  method Admit(records: seq<Record>, req: Request, env: Env) returns (r: Result<Record, Refusal>)
    ensures r.Ok? <==> Decidable(records, req, env)
    ensures r.Ok? ==> Some(r.value) == Latest(records, req.candidateId)
    ensures HasTerminal(records, req.candidateId) ==> r.Err?
  {
    var found := Latest(records, req.candidateId);
    if found.None? { return Err(CandidateNotFound); }
    var candidate := found.value;
    if !candidate.Node? || !candidate.kind.PromoteCandidate? { return Err(NotACandidate); }
    if env.suppressed(records, req.candidateId) { return Err(Suppressed); }
    var decided := FindTerminal(records, req.candidateId);
    if decided { return Err(AlreadyDecided); }
    if req.transactionTime.Some? && !env.parsesTime(req.transactionTime.value) { return Err(BadTime); }
    if candidate.context.ruleKind.None? { return Err(NoRuleKind); }
    if req.outcome.UnknownOutcome? { return Err(BadOutcome); }
    if req.surface.UnknownSurface? { return Err(BadSurface); }
    if IsBlank(req.promptedTo) || IsBlank(req.decidedBy) { return Err(BlankHandle); }
    return Ok(candidate);
  }

  method Approve(records: seq<Record>, req: Request, env: Env, candidate: Record) returns (r: Result<seq<Record>, Refusal>)
    requires candidate.Node? && candidate.context.ruleKind.Some?
    ensures r.Ok? ==> Approves(records, req, env, candidate, r.value)
    ensures r.Err? ==> forall added :: !Approves(records, req, env, candidate, added)
  {
    var refusal := CheckApproval(records, candidate, candidate.context.ruleKind.value, req.outcome);
    if refusal.Some? { return Err(refusal.value); }
    var durable := AddDurable(records, req, env, candidate);
    if durable.Err? { return Err(durable.error); }
    var generated := [PromptOf(req, env), durable.value];
    if CandidateTouched(env, candidate.context) {
      generated := generated + [RedactCandidate(env, candidate)];
    }
    var edited := if req.outcome == EditedThenApproved then RedactOption(env, req.editedRuleText) else None;
    generated := generated + [DecisionOf(req, env, Some(durable.value.id), edited)];
    return Ok(generated);
  }

  // Accepts exactly the requests for which some list of records is generated,
  // and returns that list.
  method DecideCandidate(records: seq<Record>, req: Request, env: Env) returns (r: Result<seq<Record>, Refusal>)
    ensures r.Ok? ==> Generates(records, req, env, r.value)
    ensures r.Err? ==> forall added :: !Generates(records, req, env, added)
  {
    var admitted := Admit(records, req, env);
    if admitted.Err? { return Err(admitted.error); }
    var candidate := admitted.value;
    var kind := candidate.context.ruleKind.value;
    if !EditOk(req, kind) { return Err(BadEdit); }
    if IsApproving(req.outcome) {
      r := Approve(records, req, env, candidate);
    } else {
      r := Ok([PromptOf(req, env), DecisionOf(req, env, None, None)]);
    }
  }

  // ---------------------------------------------------------------- edges

  // `records.iter().rfind(|r| r is a node with this id)`
  function LatestNode(records: seq<Record>, id: Id): Option<Record>
    decreases |records|
  {
    if records == [] then None
    else
      var last := records[|records| - 1];
      if last.Node? && last.id == id then Some(last) else LatestNode(records[..|records| - 1], id)
  }

  function LastOfKind(records: seq<Record>, kind: NodeKind): (r: Option<Record>)
    ensures r.Some? ==> r.value.Node? && r.value.kind == kind && r.value in records
    decreases |records|
  {
    if records == [] then None
    else
      var last := records[|records| - 1];
      if last.Node? && last.kind == kind then Some(last) else LastOfKind(records[..|records| - 1], kind)
  }

  function Link(relation: EdgeKind, source: Id, target: Id): Record {
    Edge(EdgeId(relation, source, target), relation, source, target)
  }

  function DurableEdge(records: seq<Record>, candidate: Id, decision: Record): seq<Record>
    requires decision.Node?
  {
    var c := decision.context;
    if c.materializedRecordId.Some? && c.outcome.Some? && IsApproving(c.outcome.value) then
      var node := LatestNode(records, candidate);
      if node.Some? && node.value.Node? && node.value.context.ruleKind == Some(Revocation)
      then [Link(RevokedBy, c.materializedRecordId.value, decision.id)]
      else [Link(MaterializedAs, decision.id, c.materializedRecordId.value)]
    else []
  }

  function EdgesOf(records: seq<Record>, prompt: Option<Record>, decision: Option<Record>): seq<Record>
    requires prompt.Some? ==> prompt.value.Node?
    requires decision.Some? ==> decision.value.Node?
  {
    if prompt.None? || prompt.value.context.candidateId.None? then []
    else
      var candidate := prompt.value.context.candidateId.value;
      [Link(PromptedFor, prompt.value.id, candidate)]
      + if decision.None? then []
        else [Link(DecidedOn, decision.value.id, candidate)] + DurableEdge(records, candidate, decision.value)
  }

  method SynthesizeUserContextEdges(records: seq<Record>, generated: seq<Record>) returns (edges: seq<Record>)
    ensures edges == EdgesOf(records, LastOfKind(generated, PromotionPrompt), LastOfKind(generated, PromotionDecision))
  {
    var prompt: Option<Record>, decision: Option<Record> := None, None;
    for i := 0 to |generated|
      invariant prompt == LastOfKind(generated[..i], PromotionPrompt)
      invariant decision == LastOfKind(generated[..i], PromotionDecision)
      invariant prompt.Some? ==> prompt.value.Node?
      invariant decision.Some? ==> decision.value.Node?
    {
      var rec := generated[i];
      assert generated[..i + 1][..i] == generated[..i];
      if rec.Node? {
        match rec.kind {
          case PromotionPrompt => prompt := Some(rec);
          case PromotionDecision => decision := Some(rec);
          case _ =>
        }
      }
    }
    assert generated[..|generated|] == generated;
    edges := [];
    if prompt.Some? && prompt.value.context.candidateId.Some? {
      var candidate := prompt.value.context.candidateId.value;
      edges := edges + [Link(PromptedFor, prompt.value.id, candidate)];
      if decision.Some? {
        edges := edges + [Link(DecidedOn, decision.value.id, candidate)];
        var c := decision.value.context;
        if c.materializedRecordId.Some? && c.outcome.Some? && IsApproving(c.outcome.value) {
          var node := LatestNode(records, candidate);
          if node.Some? && node.value.Node? && node.value.context.ruleKind == Some(Revocation) {
            edges := edges + [Link(RevokedBy, c.materializedRecordId.value, decision.value.id)];
          } else {
            edges := edges + [Link(MaterializedAs, decision.value.id, c.materializedRecordId.value)];
          }
        }
      }
    }
  }
}
