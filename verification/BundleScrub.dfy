/**
 Scrubbing a record for export and the check that nothing was missed
 (src/bundle.rs). The two lists of fields are written down independently.
 */
module BundleScrub {
  import opened Wrappers
  import opened BundleRecords

  // The redaction rules, which are not part of this model.
  datatype Rules = Rules(redact: string -> string, redactEmail: string -> string)

  function DropInline(h: Option<Handle>): Option<Handle> {
    if h.Some? then Some(h.value.(inline_ := None)) else None
  }

  function MapText(f: string -> string, t: Option<string>): Option<string> {
    if t.Some? then Some(f(t.value)) else None
  }

  // Steps 1 to 3 of the scrubbing: what is cleared.
  function ClearProse(p: Prose): Prose {
    p.(text := None, validationSummary := None, argumentsSummary := None,
       argumentsHandle := DropInline(p.argumentsHandle), resultHandle := DropInline(p.resultHandle),
       stdoutHandle := DropInline(p.stdoutHandle), stderrHandle := DropInline(p.stderrHandle),
       patchHandle := DropInline(p.patchHandle), bodyHandle := DropInline(p.bodyHandle),
       diffHunkHandle := DropInline(p.diffHunkHandle),
       proposedRuleText := None, promptText := None, decisionRationale := None, editedRuleText := None,
       ruleText := None, actionSummary := None, constraintText := None)
  }

  // Steps 4 and 5: what is rewritten.
  function RedactProse(rules: Rules, p: Prose): Prose {
    p.(authorEmail := MapText(rules.redactEmail, p.authorEmail), title := MapText(rules.redact, p.title),
       authorName := MapText(rules.redact, p.authorName), summary := rules.redact(p.summary))
  }

  function Clear(r: Record): Record {
    if r.Node? then r.(prose := ClearProse(r.prose)) else r
  }

  function Scrub(rules: Rules, r: Record): Record {
    match r
    case Node(_, _, _, _, _, _, _) => r.(prose := RedactProse(rules, ClearProse(r.prose)))
    case Edge(_, _, _, _, _) => r.(edgeSummary := rules.redact(r.edgeSummary))
    case Tombstone(_, _) => r
  }

  datatype Field =
    | Text | ValidationSummary | ArgumentsSummary
    | ArgumentsInline | ResultInline | StdoutInline | StderrInline | PatchInline | BodyInline | DiffHunkInline
    | ProposedRuleText | PromptText | DecisionRationale | EditedRuleText | RuleText | ActionSummary | ConstraintText

  predicate HasInline(h: Option<Handle>) {
    h.Some? && h.value.inline_.Some?
  }

  function FirstUnscrubbedField(r: Record): Option<Field> {
    if !r.Node? then None else
      var p := r.prose;
      if p.text.Some? then Some(Text)
      else if p.validationSummary.Some? then Some(ValidationSummary)
      else if p.argumentsSummary.Some? then Some(ArgumentsSummary)
      else if HasInline(p.argumentsHandle) then Some(ArgumentsInline)
      else if HasInline(p.resultHandle) then Some(ResultInline)
      else if HasInline(p.stdoutHandle) then Some(StdoutInline)
      else if HasInline(p.stderrHandle) then Some(StderrInline)
      else if HasInline(p.patchHandle) then Some(PatchInline)
      else if HasInline(p.bodyHandle) then Some(BodyInline)
      else if HasInline(p.diffHunkHandle) then Some(DiffHunkInline)
      else if p.proposedRuleText.Some? then Some(ProposedRuleText)
      else if p.promptText.Some? then Some(PromptText)
      else if p.decisionRationale.Some? then Some(DecisionRationale)
      else if p.editedRuleText.Some? then Some(EditedRuleText)
      else if p.ruleText.Some? then Some(RuleText)
      else if p.actionSummary.Some? then Some(ActionSummary)
      else if p.constraintText.Some? then Some(ConstraintText)
      else None
  }

  // The check and the scrubbing are in lockstep: it finds nothing exactly when the
  // clearing steps would change nothing.
  lemma UnscrubbedExactly(r: Record)
    ensures FirstUnscrubbedField(r) == None <==> Clear(r) == r
  {
  }

  // A scrubbed record passes the check and is the same record in the graph.
  lemma ScrubbedIsClean(rules: Rules, r: Record)
    ensures FirstUnscrubbedField(Scrub(rules, r)) == None
    ensures Clear(Scrub(rules, r)) == Scrub(rules, r)
    ensures Scrub(rules, r).id == r.id
    ensures CollectReferences(Scrub(rules, r)) == CollectReferences(r)
    ensures LinksOf(Scrub(rules, r)) == LinksOf(r)
  {
    ScrubbedIsCleared(rules, r);
    UnscrubbedExactly(Scrub(rules, r));
    ScrubKeepsLinks(rules, r);
  }

  lemma ScrubbedIsCleared(rules: Rules, r: Record)
    ensures Clear(Scrub(rules, r)) == Scrub(rules, r)
  {
  }

  lemma ScrubKeepsLinks(rules: Rules, r: Record)
    ensures Scrub(rules, r).id == r.id
    ensures CollectReferences(Scrub(rules, r)) == CollectReferences(r)
    ensures LinksOf(Scrub(rules, r)) == LinksOf(r)
  {
  }

  // Scrubbing twice is scrubbing once exactly when the redactions of the kept
  // texts are stable; nothing that is cleared matters.
  lemma ScrubTwice(rules: Rules, r: Record)
    requires r.Node?
    ensures Scrub(rules, Scrub(rules, r)) == Scrub(rules, r) <==>
      && (r.prose.authorEmail.Some? ==>
            rules.redactEmail(rules.redactEmail(r.prose.authorEmail.value)) == rules.redactEmail(r.prose.authorEmail.value))
      && (forall t :: t == r.prose.summary || r.prose.title == Some(t) || r.prose.authorName == Some(t) ==>
            rules.redact(rules.redact(t)) == rules.redact(t))
  {
  }
}
