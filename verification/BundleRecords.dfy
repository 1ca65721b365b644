/**
 The records an evidence bundle is made of (src/bundle.rs), and the two walks over
 the fields of a record that hold IDs of other records.
 */
module BundleRecords {
  import opened Wrappers

  datatype Id = Id(text: string)

  datatype Kind = Symbol | File | Task | Observation | Decision | Failure | Lesson | OtherKind

  // The name of the field, or the label of the edge, a link comes from.
  datatype Relation =
    | SupersededBy | ParentTaskId | VerificationLinkId | SourceExternalLinkId | LinkedPatchId | LinkedTurnId
    | ProducedEvidenceId | ApprovalDecisionId | MaterializedRecordId | RepositorySnapshot | DeletedId
    | Named(name: string)

  datatype EvidenceLink = EvidenceLink(relation: string, target: Option<Id>)

  // The reference-bearing fields of a node.
  datatype Refs = Refs(
    supersededBy: Option<Id>, parentTaskId: Option<Id>, verificationLinkId: Option<Id>,
    sourceExternalLinkId: Option<Id>, linkedPatchId: Option<Id>, linkedTurnId: Option<Id>,
    producedEvidenceId: Option<Id>, approvalDecisionId: Option<Id>, materializedRecordId: Option<Id>,
    evidenceLinks: Option<seq<EvidenceLink>>, snapshotRepository: Option<Id>)

  datatype Handle = Handle(hash: string, inline_: Option<string>)

  // The fields `scrub_record` clears or redacts.
  datatype Prose = Prose(
    text: Option<string>, validationSummary: Option<string>, argumentsSummary: Option<string>,
    argumentsHandle: Option<Handle>, resultHandle: Option<Handle>, stdoutHandle: Option<Handle>,
    stderrHandle: Option<Handle>, patchHandle: Option<Handle>, bodyHandle: Option<Handle>,
    diffHunkHandle: Option<Handle>,
    proposedRuleText: Option<string>, promptText: Option<string>, decisionRationale: Option<string>,
    editedRuleText: Option<string>, ruleText: Option<string>, actionSummary: Option<string>,
    constraintText: Option<string>,
    authorEmail: Option<string>, authorName: Option<string>, title: Option<string>, summary: string)

  datatype Record =
    | Node(id: Id, kind: Kind, name: Option<string>, path: Option<string>, entityId: Option<string>,
           refs: Refs, prose: Prose)
    | Edge(id: Id, source: Id, target: Id, tag: string, edgeSummary: string)
    | Tombstone(id: Id, deletedId: Id)

  // ---------------------------------------------------------------- references

  function PushId(refs: seq<Id>, id: Option<Id>): seq<Id> {
    if id.Some? then refs + [id.value] else refs
  }

  function PushTargets(refs: seq<Id>, links: seq<EvidenceLink>): seq<Id> {
    if links == [] then refs else PushId(PushTargets(refs, links[..|links| - 1]), links[|links| - 1].target)
  }

  // The IDs a record refers to, in the order of its fields.
  function CollectReferences(r: Record): seq<Id> {
    match r
    case Edge(_, source, target, _, _) => [source, target]
    case Node(_, _, _, _, _, f, _) =>
      var refs := PushId(PushId(PushId(PushId([], f.supersededBy), f.parentTaskId), f.verificationLinkId),
                         f.sourceExternalLinkId);
      var refs := PushId(PushId(PushId(refs, f.linkedPatchId), f.linkedTurnId), f.producedEvidenceId);
      var refs := PushId(PushId(refs, f.approvalDecisionId), f.materializedRecordId);
      PushId(PushTargets(refs, f.evidenceLinks.UnwrapOr([])), f.snapshotRepository)
    case Tombstone(_, deletedId) => [deletedId]
  }

  datatype Link = Link(to: Id, relation: Relation)

  function PushLink(links: seq<Link>, id: Option<Id>, relation: Relation): seq<Link> {
    if id.Some? then links + [Link(id.value, relation)] else links
  }

  function PushEvidence(links: seq<Link>, evidence: seq<EvidenceLink>): seq<Link> {
    if evidence == [] then links
    else
      var last := evidence[|evidence| - 1];
      PushLink(PushEvidence(links, evidence[..|evidence| - 1]), last.target, Named(last.relation))
  }

  // The labelled links the adjacency pass adds for one record, each in both directions.
  function LinksOf(r: Record): seq<Link> {
    match r
    case Edge(_, source, target, tag, _) => [Link(source, Named(tag)), Link(target, Named(tag))]
    case Node(_, _, _, _, _, f, _) =>
      var links := PushLink(PushLink([], f.supersededBy, SupersededBy), f.parentTaskId, ParentTaskId);
      var links := PushLink(links, f.verificationLinkId, VerificationLinkId);
      var links := PushLink(links, f.sourceExternalLinkId, SourceExternalLinkId);
      var links := PushLink(PushLink(links, f.linkedPatchId, LinkedPatchId), f.linkedTurnId, LinkedTurnId);
      var links := PushLink(links, f.producedEvidenceId, ProducedEvidenceId);
      var links := PushLink(links, f.approvalDecisionId, ApprovalDecisionId);
      var links := PushLink(links, f.materializedRecordId, MaterializedRecordId);
      PushLink(PushEvidence(links, f.evidenceLinks.UnwrapOr([])), f.snapshotRepository, RepositorySnapshot)
    case Tombstone(_, deletedId) => [Link(deletedId, DeletedId)]
  }

  ghost predicate Agree(refs: seq<Id>, links: seq<Link>) {
    |refs| == |links| && forall i :: 0 <= i < |refs| ==> refs[i] == links[i].to
  }

  lemma PushAgrees(refs: seq<Id>, links: seq<Link>, id: Option<Id>, relation: Relation)
    requires Agree(refs, links)
    ensures Agree(PushId(refs, id), PushLink(links, id, relation))
  {
  }

  lemma EvidenceAgrees(refs: seq<Id>, links: seq<Link>, evidence: seq<EvidenceLink>)
    requires Agree(refs, links)
    ensures Agree(PushTargets(refs, evidence), PushEvidence(links, evidence))
  {
  }

  // The field walk that collects references and the one that builds the adjacency
  // visit the same IDs in the same order.
  lemma LinksAreReferences(r: Record)
    ensures Agree(CollectReferences(r), LinksOf(r))
  {
    if r.Node? {
      var f := r.refs;
      var x, l := [], [];
      PushAgrees(x, l, f.supersededBy, SupersededBy);
      x, l := PushId(x, f.supersededBy), PushLink(l, f.supersededBy, SupersededBy);
      PushAgrees(x, l, f.parentTaskId, ParentTaskId);
      x, l := PushId(x, f.parentTaskId), PushLink(l, f.parentTaskId, ParentTaskId);
      PushAgrees(x, l, f.verificationLinkId, VerificationLinkId);
      x, l := PushId(x, f.verificationLinkId), PushLink(l, f.verificationLinkId, VerificationLinkId);
      PushAgrees(x, l, f.sourceExternalLinkId, SourceExternalLinkId);
      x, l := PushId(x, f.sourceExternalLinkId), PushLink(l, f.sourceExternalLinkId, SourceExternalLinkId);
      PushAgrees(x, l, f.linkedPatchId, LinkedPatchId);
      x, l := PushId(x, f.linkedPatchId), PushLink(l, f.linkedPatchId, LinkedPatchId);
      PushAgrees(x, l, f.linkedTurnId, LinkedTurnId);
      x, l := PushId(x, f.linkedTurnId), PushLink(l, f.linkedTurnId, LinkedTurnId);
      PushAgrees(x, l, f.producedEvidenceId, ProducedEvidenceId);
      x, l := PushId(x, f.producedEvidenceId), PushLink(l, f.producedEvidenceId, ProducedEvidenceId);
      PushAgrees(x, l, f.approvalDecisionId, ApprovalDecisionId);
      x, l := PushId(x, f.approvalDecisionId), PushLink(l, f.approvalDecisionId, ApprovalDecisionId);
      PushAgrees(x, l, f.materializedRecordId, MaterializedRecordId);
      x, l := PushId(x, f.materializedRecordId), PushLink(l, f.materializedRecordId, MaterializedRecordId);
      EvidenceAgrees(x, l, f.evidenceLinks.UnwrapOr([]));
      x, l := PushTargets(x, f.evidenceLinks.UnwrapOr([])), PushEvidence(l, f.evidenceLinks.UnwrapOr([]));
      PushAgrees(x, l, f.snapshotRepository, RepositorySnapshot);
    }
  }
}
