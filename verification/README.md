# Verification of Egregore's decision cores

Egregore keeps a knowledge graph of code facts, agent memory, project state and
evidence as an append-only list of records. This project models the parts of it that
decide something about those records, and proves what they promise: Dafny methods for
the code that works step by step, functions for the code that only computes, and lemmas
over all inputs, all runs or all orders for what the code is for.
`dafny verify dfyconfig.toml` checks everything.

## What is modelled

- **Creation of an encrypted store** (`EncryptedStore.dfy`, `EncryptedStoreRuns.dfy`).
  A data directory with every file effect as a step of its own; a call may stop before
  any effect, and every prefix of the authority file that a write can leave is a state.
  Runs mix any number of calls with opens by the engine, which is taken to rewrite
  only files other than the authority, the marker and the marker's temporary file.
  A crash and an I/O error are the same thing: nothing is rolled back.
- **Promotion decisions** (`Decide.dfy`, `DecideRuns.dfy`). Redaction, the debounce, the
  audit trail, the clock and the time parser are parameters. IDs minted by hashing are
  their parts. Runs append what accepted requests generate, and anything else that is
  neither a decision nor a durable policy record.
- **Evidence bundles** (`BundleRecords.dfy`, `BundleClosure.dfy`, `BundleScrub.dfy`,
  `Bundle.dfy`, `BundleFacts.dfy`). JSON, the hash, the redaction rules, the secret scan
  and the citation classifier are parameters; only the lemmas that say so assume that JSON
  and hash lose nothing.
- **Extraction accuracy** (`Accuracy.dfy`, `AccuracyEdges.dfy`). IDs, kinds, names and
  labels are compared for equality only and are tokens.
- **The citation audit** (`CommitGraph.dfy`, `ChangesRange.dfy`, `CitationClassify.dfy`,
  `CitationSources.dfy`, `CitationGate.dfy`, `CitationAudit.dfy`). The scan that finds a protected payload is a
  field of the record; ratios are exact reals.
- **The acceptance-criterion census** (`CriteriaCoverage.dfy`, `CriteriaFacts.dfy`,
  `CriteriaOrder.dfy`, `CriteriaGrowth.dfy`), with liveness as latest write wins (`Liveness.dfy`).
- **Nearest enclosing manifest** (`CrateAttribution.dfy`, `CrateFacts.dfy`).
- **Transcript turns** (`CodexTurns.dfy`, `ClaudeTurns.dfy`, `AntigravityTurns.dfy`) and
  the timestamp validator the importers share (`Rfc3339.dfy`), against section 5.6 of RFC 3339.
- **LCOV coverage** (`Lcov.dfy`, `LcovFacts.dfy`, `FileResolver.dfy`).
- Shared vocabulary: `Wrappers.dfy`, `Text.dfy`, `Paths.dfy`, `Order.dfy`, `Sorting.dfy`,
  `Listing.dfy`, `Merging.dfy`, `Counting.dfy`.

## Where the code and its promise part

Each of these is proved: the condition under which the promise holds, and that it can fail.

- A bundle includes a record once only if no ID is selected twice: a selector that matches
  two versions of one ID puts the last version in twice (`OnceEach`, `TwoVersionsTwice`).
- A retry of an interrupted initialisation recovers the store unless an earlier retry
  stopped between its two removals, after the authority file and before the marker's
  temporary file; such a directory is refused for ever and opens as plaintext
  (`CallKeepsRecoverable`, `StrandedExactly`, `StrandedForever`, `StrandingRun`).
- The true and false positives of a class add up to what was scanned exactly when no scanned
  member of the class is hidden by another one with its ID (`NodeCountsAreConserved`,
  `EdgeCountsAreConserved`). For given scanned nodes, or edges, they add up whatever the labels
  exactly when no scanned ID is repeated (`NodeCountsNeedDistinctIds`,
  `EdgeCountsNeedDistinctIds`, `RepeatedIdBreaksCounts`).
- A range of commits is found exactly when some tip has a parent in the set. Without cycles
  that is whenever any commit has one; with cycles it is not (`AcyclicFindsRange`,
  `CycleFindsNothing`).
- A builder keeps the rows without a record ID and the versions of all other records, each
  with its first row, exactly when no record has the identity and version reserved for a row
  without an ID, whichever of the two is pushed first; otherwise a missing row can vanish
  behind a cited one, in either order (`RowsAreCounted`, `AllVersionsKeptExactly`,
  `VersionKeptExactly`, `CollisionHidesMissingRow`, `EmptyRowHidesMissingRow`). Records of one
  class can collide so either way (`EvidenceHidesEvidence`, `ArtifactHidesArtifact`).
- One log source with a hash is promised to be enough to cite a runtime observation. It is
  enough to find one, but the observation is cited, whatever the order of its links, exactly
  when every source that can answer for it has a path: its own captures, or without any those
  of its signatures (`RuntimeCitedExactly`, `FirstSourceDecides`). One is enough when every
  source with a hash has a path (`RuntimeNeedsSource`).
- Records are read alike by the census in every order, whatever is appended to them, exactly
  when every two of them commute: versions of an edge make the same link, versions of a node
  are the same criterion or none is one, and what a tombstone deletes is kept by history or
  not read at all (`OrderFreeExactly`, `CommutingCensus`). Orders that put tombstones after
  their targets need only criterion and edge IDs written once, and neither that nor the place
  of the tombstones can be left out (`OrderDoesNotMatter`, `RewrittenCriterionDependsOnOrder`,
  `RewrittenEdgeDependsOnOrder`, `EarlyTombstoneDependsOnOrder`).
- The hashes of a bundle that passes pin its records and nothing else: another bundle with
  these hashes passes exactly when it has the same records, counts with the same sum, and
  roots among the records; the list of unresolved links is free (`UnpinnedExactly`).
- An undated version of a task keeps a claim exactly when it is not a version of the criterion
  itself and does not bring the proof: nothing closes the criterion, and the latest edge under
  the task's ID is deleted and would close it with a passing record (`UndatedTaskKeepsClaims`,
  `OwnVersionEndsClaim`, `RevivedEdgeEndsClaim`).
- The tie flag of the file resolver is never set (`ResolveFile`).

## Model

| member | source | states |
|---|---|---|
| EncryptedStore.DataDir.WriteAuthority | src/encrypted_store.rs:606-630 | the file grows prefix by prefix and may stop at any of them |
| EncryptedStore.DataDir.WriteFreshEncryptionState | src/encrypted_store.rs:606-630 | creates the directory, then the authority, or does nothing when one stands; cut anywhere |
| EncryptedStore.DataDir.WriteMarker | src/encrypted_store.rs:360-392 | temporary file torn, then whole, then renamed; cut anywhere |
| EncryptedStore.DataDir.DiscardPartialInit | src/encrypted_store.rs:710-735 | removes the listed files one by one only if they are the authority and at most the temporary file |
| EncryptedStore.DataDir.CreateStore | src/encrypted_store.rs:752-786 | performs the authority's effects before the marker's, cut anywhere |
| EncryptedStore.DataDir.PrepareEncryptedIngest | src/encrypted_store.rs:752-786 | the directory after any number of effects, and the answer of a call that is not cut |
| EncryptedStore.NotFreshKeepsMarker | src/encrypted_store.rs:710-735 | a discard that finishes either empties the directory or changes nothing |
| EncryptedStoreRuns.TornAuthority | src/encrypted_store.rs:400-432 | every prefix of the authority file claims an enabled store or is refused; none claims a disabled one |
| EncryptedStoreRuns.PrepareStages | src/encrypted_store.rs:606-786 | the closed form of the directory after any number of effects of a call |
| EncryptedStoreRuns.StepKeepsInv | src/encrypted_store.rs:606-786 | a call cut anywhere and an open keep the invariant of reachable directories |
| EncryptedStoreRuns.RunInvariant | src/encrypted_store.rs:360-786 | the invariant holds in every state of every run from an empty directory |
| EncryptedStoreRuns.MarkerNeverLeadsAuthority | src/encrypted_store.rs:360-786 | in every run, where a marker exists the authority is complete, enabled and written for the same key source |
| EncryptedStoreRuns.PinnedKeyNeverChanges | src/encrypted_store.rs:360-786 | once a marker exists no later step of a run changes it |
| EncryptedStoreRuns.NeverPlaintextUnderAuthority | src/encrypted_store.rs:536-582 | in every run, while an authority file stands, torn or whole, no open is answered plaintext |
| EncryptedStoreRuns.ForeignFileKeepsDirectory | src/encrypted_store.rs:710-786 | a directory with any other file is left as it is, wherever the call stops |
| EncryptedStoreRuns.RetryAccepted | src/encrypted_store.rs:752-786 | a retry on a reachable directory succeeds exactly when it is empty or holds the authority |
| EncryptedStoreRuns.RetryRecovers | src/encrypted_store.rs:536-786 | an accepted retry that is not cut leaves a store that opens encrypted when its key is available |
| EncryptedStoreRuns.StrandedExactly | src/encrypted_store.rs:710-735 | a call leaves the temporary file without the authority exactly when it stops between the two removals, authority first |
| EncryptedStoreRuns.CallKeepsRecoverable | src/encrypted_store.rs:710-786 | from a directory a retry accepts, a call leaves one a retry accepts unless it stops exactly there |
| EncryptedStoreRuns.StrandedForever | src/encrypted_store.rs:536-786 | such a directory is refused and resolves as plaintext in every later state |
| EncryptedStoreRuns.StrandingRun | src/encrypted_store.rs:710-786 | a run of two calls that strands a directory |
| Decide.FindTerminal | src/decide.rs:104-122 | found exactly when some record decides the candidate finally |
| Decide.CheckSupport | src/decide.rs:241-320 | accepts exactly three distinct existing evidence nodes from two sessions |
| Decide.CheckContradictions | src/decide.rs:322-376 | accepts exactly links to existing durable policy records |
| Decide.CheckSupersession | src/decide.rs:378-416 | accepts exactly a superseded candidate that was rejected |
| Decide.CheckApproval | src/decide.rs:188-500 | refuses exactly the candidates that miss a requirement of approval |
| Decide.FindRevocable | src/decide.rs:660-740 | finds the first active copy exactly when no revoked copy exists and the record is an audited policy |
| Decide.AddDurable | src/decide.rs:618-893 | yields the new or revoked durable record, or none can be added |
| Decide.Admit | src/decide.rs:72-187 | admits exactly the requests every outcome needs |
| Decide.Approve | src/decide.rs:188-935 | yields the records of an approval, or no list of records would do |
| Decide.DecideCandidate | src/decide.rs:72-935 | accepts exactly the requests for which some list of records is generated, and returns it |
| Decide.SynthesizeUserContextEdges | src/decide.rs:938-1076 | the edges of the last prompt and the last decision generated |
| DecideRuns.DecisionKeepsInv | src/decide.rs:642-893 | an accepted request keeps the invariant of the store |
| DecideRuns.RunInvariant | src/decide.rs:72-893 | in every run: one terminal decision per candidate, nothing after a revoked copy, every durable record backed |
| DecideRuns.StoresGrow | src/decide.rs:72-893 | every store of a run is a prefix of every later one |
| DecideRuns.DecidedOnce | src/decide.rs:104-122 | a candidate decided finally keeps that one decision and is never decided again |
| DecideRuns.DeferralKeepsOpen | src/decide.rs:72-122 | a deferral changes nothing about whether the candidate can be decided, when suppression reads candidates and rejections only |
| DecideRuns.RevokedOnceAndForAll | src/decide.rs:642-740 | in every run a durable record is revoked at most once and no copy follows the revoked one |
| DecideRuns.DurablesAreBacked | src/decide.rs:188-893 | in every run a durable record comes from exactly one approving decision whose candidate cites three existing evidence nodes, not all of one session |
| DecideRuns.EdgesTellWhatWasDone | src/decide.rs:938-1076 | the edges name the prompt, the decision, and what was created or revoked |
| BundleRecords.LinksAreReferences | src/bundle.rs:431-525 | the references collected from a record are the links the search follows from it, in the same order |
| BundleClosure.IndexById | src/bundle.rs:425-429 | each ID is indexed by the last of its versions |
| BundleClosure.BuildAdjacency | src/bundle.rs:431-525 | lists exactly the links of all versions of all records, in both directions |
| BundleClosure.Expand | src/bundle.rs:544-566 | new IDs are queued once each, dangling references of the record noted, nothing else |
| BundleClosure.Visit | src/bundle.rs:540-568 | one round keeps the invariant of the search and brings it nearer to its end |
| BundleClosure.Traverse | src/bundle.rs:425-568 | terminates; includes the roots as listed, then every other reachable ID once, each in its last version; the unresolved links are exactly the references to absent IDs |
| BundleClosure.UnresolvedPairs | src/bundle.rs:544-566 | the pairs of source and missing target are exactly the references of included records to absent IDs |
| BundleScrub.UnscrubbedExactly | src/bundle.rs:219-403 | the check names no field exactly when the clearing steps would change nothing |
| BundleScrub.ScrubbedIsClean | src/bundle.rs:219-403 | a scrubbed record passes the check and keeps its ID, references and links |
| BundleScrub.ScrubTwice | src/bundle.rs:219-302 | scrubbing is idempotent exactly when the redactions of the kept texts are |
| Bundle.Selected | src/bundle.rs:147-217 | exactly the records that match the selector |
| Bundle.CountCoverage | src/bundle.rs:618-650 | counts the cited records, and tells whether all outside the code are |
| Bundle.CountByTrust | src/bundle.rs:669-674 | counts each trust class exactly, and the counts add up to the records |
| Bundle.ExportBundle | src/bundle.rs:412-692 | an exported bundle holds the scrubbed closure and passes integrity, coverage and the scrub check; otherwise the closure misses a threshold or the selector is refused |
| Bundle.CheckIntegrity | src/bundle.rs:698-764 | passes exactly when counts add up, every hash matches and all neighbours are in order |
| Bundle.CheckCoverage | src/bundle.rs:766-832 | passes exactly when the roots are included and both thresholds are met |
| Bundle.CheckSafety | src/bundle.rs:834-867 | passes exactly when no record trips the secret scan or keeps a scrubbed field |
| Bundle.VerifyBundle | src/bundle.rs:694-877 | the three verdicts and their conjunction |
| Bundle.ExportThenVerify | src/bundle.rs:412-877 | whatever is exported passes integrity and coverage, and safety unless the secret scan objects |
| BundleFacts.OnceEach | src/bundle.rs:527-568 | a record is included once exactly when no ID is selected twice |
| BundleFacts.TwoVersionsTwice | src/bundle.rs:412-568 | two selected versions of an ID put its last version in twice |
| BundleFacts.ExportIsCanonical | src/bundle.rs:412-692 | the exported records depend on what the store holds and on the roots, not on any order |
| BundleFacts.PermutationsAgree | src/bundle.rs:587-597 | the canonical order leaves one arrangement of the same records |
| BundleFacts.HashesPinRecords | src/bundle.rs:711-732 | two bundles that pass with the same hashes hold the same records |
| BundleFacts.TamperingIsCaught | src/bundle.rs:697-764 | replacing a record under its hash, or dropping one, fails the check |
| BundleFacts.UnpinnedExactly | src/bundle.rs:694-877 | the bundles that pass with the hashes of one that passes differ from it in counts of the same sum, included roots and unresolved links, and in nothing else |
| Accuracy.EqualNormalizedMeans | src/accuracy.rs:184-200 | equal exactly when equal character by character once backslashes are slashes |
| Accuracy.PathEqualsNormalized | src/accuracy.rs:184-200 | the loop decides that equality |
| Accuracy.IsCompatible | src/accuracy.rs:283-330 | decides whether a scanned node fits a label |
| Accuracy.FindFree | src/accuracy.rs:276-334 | the first scanned node that fits and whose ID is free |
| Accuracy.MatchNodes | src/accuracy.rs:276-334 | the matched sets are those of the greedy matching, and the map takes each matched ID to its label |
| Accuracy.NodeMatchingIsChoice | src/accuracy.rs:276-334 | the matching pairs compatible nodes and uses no label and no scanned ID twice |
| Accuracy.GreedyIsMaximal | src/accuracy.rs:276-334 | no compatible pair is left with both sides free |
| Accuracy.NodeMatchingIsHalfOptimal | src/accuracy.rs:276-334 | any other such matching is at most twice as large |
| Accuracy.GreedyCanLoseHalf | src/accuracy.rs:276-334 | the bound is reached |
| Accuracy.ScoreClass | src/accuracy.rs:348-397 | the counts of a class are the sizes of its matched, missed and spurious members |
| Accuracy.ClassCountsAreConserved | src/accuracy.rs:348-397 | for any one-to-one pairing the counts add up to the labelled and, with the hidden members, to the scanned members |
| Accuracy.NodeCountsAreConserved | src/accuracy.rs:276-397 | for every kind true positives and false negatives add up to what was labelled; true and false positives to what was scanned exactly when no scanned node of the kind is hidden by another one with its ID |
| Accuracy.NodeCountsNeedDistinctIds | src/accuracy.rs:276-397 | for given scanned nodes they add up for all labels and kinds exactly when no scanned ID is repeated |
| Accuracy.RepeatedIdBreaksCounts | src/accuracy.rs:276-397 | a repeated scanned ID with which they do not |
| AccuracyEdges.MatchEdges | src/accuracy.rs:442-473 | the matched edges are those of the greedy matching through the node matching |
| AccuracyEdges.MatchAll | src/accuracy.rs:276-473 | the two passes together: the edges are matched through the map the nodes give |
| AccuracyEdges.GreedyEdgesMatch | src/accuracy.rs:442-473 | the edge matching is one-to-one and keeps label and both ends |
| AccuracyEdges.GreedyEdgesMaximal | src/accuracy.rs:442-473 | no fitting pair of edges is left free |
| AccuracyEdges.GreedyEdgesOptimal | src/accuracy.rs:442-473 | no one-to-one edge matching is larger |
| AccuracyEdges.EdgeCountsAreConserved | src/accuracy.rs:442-537 | for every label true positives and false negatives add up to what was labelled; true and false positives to what was scanned exactly when no scanned edge with the label is hidden by another one with its ID |
| AccuracyEdges.EdgeCountsNeedDistinctIds | src/accuracy.rs:276-537 | for given scanned edges they add up for all nodes and labels exactly when no scanned edge ID is repeated |
| CommitGraph.AncestorsOf | src/citation_audit.rs:1904-1918 | terminates and collects exactly the transitive parents in the set, with or without cycles |
| CommitGraph.Pop | src/citation_audit.rs:1908-1916 | one round of the walk keeps what is found ancestral and everything popped expanded |
| CommitGraph.RootBelow | src/citation_audit.rs:1926-1936 | without cycles every commit with a parent has a root among its ancestors |
| CommitGraph.TipAbove | src/citation_audit.rs:1923-1926 | without cycles a tip with a parent lies above every commit with one |
| ChangesRange.BuildGraph | src/citation_audit.rs:1876-1895 | every named commit, with the parents its last record gives |
| ChangesRange.GraphOfRecords | src/citation_audit.rs:1876-1895 | the graph folded from the records is that graph |
| ChangesRange.CollectParents | src/citation_audit.rs:1896-1903 | a commit is left out exactly when it is a tip |
| ChangesRange.FindBase | src/citation_audit.rs:1926-1936 | the least root among the ancestors, else the least ancestor; none exactly without a parent |
| ChangesRange.ChangesRange | src/citation_audit.rs:1875-1942 | a range exactly when some tip has a parent in the set; its head is the greatest such tip |
| ChangesRange.AcyclicFindsRange | src/citation_audit.rs:1875-1942 | without cycles that is exactly when some commit has a parent in the set |
| ChangesRange.AcyclicRange | src/citation_audit.rs:1863-1942 | without cycles the base is a root and a strict ancestor of the head, which is nobody's parent |
| ChangesRange.RangeIsConnected | src/citation_audit.rs:1919-1942 | even with cycles the base is a strict ancestor of the head |
| ChangesRange.CycleFindsNothing | src/citation_audit.rs:1875-1942 | two commits that are each other's parent give no range |
| CitationClassify.FirstOther | src/citation_audit.rs:719-843 | the first handle that is present, not empty and not the record itself, or there is none |
| CitationClassify.AgentHandleIsExternal | src/citation_audit.rs:716-762 | a claim is never its own evidence |
| CitationClassify.BuildLogIndex | src/citation_audit.rs:587-639 | the last visible payload of each source and exactly the links of edges that are not deleted, in their order |
| CitationClassify.LastSourceMeans | src/citation_audit.rs:596-609 | a source is read in its last visible record |
| CitationSources.ResolvesExactly | src/citation_audit.rs:641-666 | a source is found exactly when some source with a hash is reached, directly or through a signature |
| CitationClassify.EveryRowIsAccounted | src/citation_audit.rs:478-939 | a missing row has a diagnostic, a cited one a handle, a documented absence its rule |
| CitationClassify.CodeRowIsAccounted | src/citation_audit.rs:478-551 | a code row is cited exactly with an ID, a path, and a span or a kind that needs none |
| CitationSources.RuntimeNeedsSource | src/citation_audit.rs:668-714 | a cited runtime observation has a well-formed ID and reaches a source with a hash; the converse holds when all sources with a hash have a path |
| CitationSources.RuntimeCitedExactly | src/citation_audit.rs:641-714 | under every order of its links a runtime observation is cited exactly with a well-formed ID and, for a log source, a hash and a path of its own, for anything else a source it reaches and a path for every one that can answer |
| CitationSources.SomeIndexAnswers | src/citation_audit.rs:641-666 | every source that can answer is the one asked under some order of the links |
| CitationSources.FirstSourceDecides | src/citation_audit.rs:587-714 | of two records that capture sources with a hash, the one written first decides whether the row is cited |
| CitationGate.CountRows | src/citation_audit.rs:163-176 | counts row by row |
| CitationGate.CountsAreExact | src/citation_audit.rs:163-176 | each counter is the number of rows with its status |
| CitationGate.StatusesPartition | src/citation_audit.rs:138-176 | the four statuses partition the rows |
| CitationGate.CountsAdd | src/citation_audit.rs:154-161 | added counts are those of the rows put together |
| CitationGate.WorkflowBuilder.AddDiagnostic | src/citation_audit.rs:1046-1054 | adds one diagnostic and keeps every missing row named |
| CitationGate.WorkflowBuilder.PushClassified | src/citation_audit.rs:1026-1044 | the whole new state; keeps every missing row named |
| CitationGate.WorkflowBuilder.PushRecord | src/citation_audit.rs:1013-1016 | classifies with provenance, and keeps every missing row named |
| CitationGate.WorkflowBuilder.PushExcluded | src/citation_audit.rs:1019-1024 | reports the row as excluded, and keeps every missing row named |
| CitationGate.WorkflowBuilder.NoteRedaction | src/citation_audit.rs:1056-1065 | notes a redacted record and touches no row |
| CitationGate.WorkflowBuilder.Finish | src/citation_audit.rs:1067-1095 | the rows in key order with their counts |
| CitationGate.PushDiagnosed | src/citation_audit.rs:1026-1044 | pushing an accounted row keeps every missing row named |
| CitationGate.ListsEveryRow | src/citation_audit.rs:1067-1072 | the report lists exactly the rows of the map |
| CitationAudit.EvaluateGate | src/citation_audit.rs:2550-2612 | every figure of the gate in terms of the rows of all workflows |
| CitationAudit.RunAudit | src/citation_audit.rs:2429-2521 | no missing row is unclassified, the overall counts are those of all rows, and the verdict is that of the three gates |
| CitationAudit.RunDiagnosed | src/citation_audit.rs:1013-1065 | after any sequence of pushes every missing row is named |
| CitationAudit.RowsStay | src/citation_audit.rs:1031-1044 | the first classification of a version is never replaced |
| CitationAudit.RowsAreCounted | src/citation_audit.rs:1031-1044 | the rows kept are as many as the rows without an ID and the versions of records with one exactly when none of these has the key of one of those |
| CitationAudit.VersionKeptExactly | src/citation_audit.rs:1031-1044 | the first row of a version is kept exactly when no earlier push of the other kind has its key |
| CitationAudit.AllVersionsKeptExactly | src/citation_audit.rs:1031-1044 | all of them are kept exactly when there is no such key in either order |
| CitationAudit.MissingReachesGate | src/citation_audit.rs:1031-1072 | without such a key every missing version is among the rows the gate reads |
| CitationAudit.CollisionHidesMissingRow | src/citation_audit.rs:1031-1044 | a cited record with a reserved ID hides a missing row without one |
| CitationAudit.EmptyRowHidesMissingRow | src/citation_audit.rs:1031-1044 | a cited row without an ID hides a missing record with the reserved one |
| CitationAudit.EvidenceHidesEvidence | src/citation_audit.rs:847-1044 | verification evidence with the reserved ID, classified, hides verification evidence without one |
| CitationAudit.ArtifactHidesArtifact | src/citation_audit.rs:847-1044 | an artifact with a handle and no ID, classified, hides one with the reserved ID and no handle |
| CriteriaCoverage.CollectVersions | src/criteria_coverage.rs:691-705 | every live version of every ID, in order |
| CriteriaCoverage.CollectEdges | src/criteria_coverage.rs:713-744 | exactly the targets of current edges, by label and source |
| CriteriaCoverage.ResolveAll | src/criteria_coverage.rs:793-817 | one resolution for every handle and none besides |
| CriteriaCoverage.FindDoneParent | src/criteria_coverage.rs:836-945 | found exactly when a candidate parent has a deciding version that is done |
| CriteriaCoverage.Judge | src/criteria_coverage.rs:758-1070 | the row of a criterion has its bucket and its claim |
| CriteriaCoverage.TakeCensus | src/criteria_coverage.rs:685-1078 | one row for every live criterion and no other |
| CriteriaCoverage.CountBuckets | src/criteria_coverage.rs:1026-1087 | the count of each bucket and of the claims |
| CriteriaCoverage.RunCriteriaCoverage | src/criteria_coverage.rs:685-1221 | the census, its counts, and a verdict that fails exactly on a low ratio or too many claims |
| CriteriaFacts.BucketIsJoin | src/criteria_coverage.rs:625-655 | evidence put together lands in the worse of its two buckets |
| CriteriaFacts.PassingExactly | src/criteria_coverage.rs:536-621 | a handle passes exactly when every live version is a verification record with evidence that passes and is not the criterion |
| CriteriaFacts.ProvenExactly | src/criteria_coverage.rs:768-817 | a criterion is proven exactly when something closes it and everything that closes it passes so |
| CriteriaFacts.BucketsPartition | src/criteria_coverage.rs:124-140 | the buckets partition the criteria |
| CriteriaFacts.OrderDoesNotMatter | src/criteria_coverage.rs:685-1078 | any two orders give the same rows when criterion and edge IDs are written once and tombstones follow their targets; each clause is needed, by the three lemmas below |
| CriteriaFacts.RewrittenCriterionDependsOnOrder | src/criteria_coverage.rs:706-711 | a criterion written twice is judged by its last version |
| CriteriaFacts.RewrittenEdgeDependsOnOrder | src/criteria_coverage.rs:713-744 | an edge ID written twice is read in its last version |
| CriteriaFacts.EarlyTombstoneDependsOnOrder | src/criteria_coverage.rs:691-705 | a tombstone before its target leaves the criterion in the census |
| CriteriaOrder.OrderFreeExactly | src/criteria_coverage.rs:685-744 | the census reads the same versions, criteria and links in every order of the records and before any others exactly when every two records commute |
| CriteriaOrder.SameViewSameCensus | src/criteria_coverage.rs:758-1078 | what is read alike gives the same rows |
| CriteriaOrder.CommutingCensus | src/criteria_coverage.rs:685-1078 | any two orders of commuting records, with the same records after them, give the same rows |
| CriteriaOrder.TargetsAreGiven | src/criteria_coverage.rs:713-744 | a join holds the links of the last version of every edge ID that is not deleted |
| CriteriaGrowth.UndatedTaskKeepsClaims | src/criteria_coverage.rs:836-1021 | after an undated version of a task a claimed criterion is claimed exactly when the version is not one of the criterion and does not bring its proof back |
| CriteriaGrowth.NewlyProvenExactly | src/criteria_coverage.rs:713-1021 | it proves an unproven criterion exactly when nothing closes it and a deleted edge with the ID of the task would, with a passing record |
| CriteriaGrowth.OwnVersionEndsClaim | src/criteria_coverage.rs:706-711 | a task version under the ID of a criterion takes it out of the census |
| CriteriaGrowth.TargetsGrown | src/criteria_coverage.rs:713-744 | a new version of a node adds to each join exactly the target of the deleted edge it brings back |
| CriteriaGrowth.RevivedEdgeEndsClaim | src/criteria_coverage.rs:713-1021 | a store in which that happens |
| CrateAttribution.FromFacts | src/crate_attribution.rs:274-292 | the index holds for each directory the least outcome given for its manifest |
| CrateAttribution.IndexIsDetermined | src/crate_attribution.rs:255-292 | the index depends on the set of facts only |
| CrateAttribution.PathOfDirectory | src/crate_attribution.rs:114-127 | only one manifest path has a given directory |
| CrateAttribution.AncestorDirs | src/crate_attribution.rs:374-388 | the prefixes of the path's directory, nearest first, down to the root |
| CrateAttribution.AttributionFor | src/crate_attribution.rs:299-343 | the deepest manifest that is not virtual answers, else the reason tells whether a virtual one was passed |
| CrateFacts.AttributedExactly | src/crate_attribution.rs:299-343 | a file belongs to a package exactly when the nearest manifest that declares something names it |
| CrateFacts.AnswersNearest | src/crate_attribution.rs:299-343 | the answer is that of the nearest manifest, whatever it declares |
| CrateFacts.AttributedIsEnclosed | src/crate_attribution.rs:390-436 | the manifest an attribution cites encloses the file |
| CrateFacts.EnclosesExactly | src/crate_attribution.rs:390-436 | enclosure is a prefix relation on whole segments |
| Paths.SplitJoin | src/crate_attribution.rs:120-127 | segments without a slash are recovered from the joined path |
| Rfc3339.SanitizeRfc3339 | src/codex.rs:1374-1481 | accepts exactly the formatted valid timestamps, unchanged, without leaving the byte range |
| Rfc3339.CheckHead | src/claude_code.rs:1360-1397 | decides the date and time part, seconds up to 60 and days by month |
| Rfc3339.CheckOffset | src/claude_code.rs:1404-1419 | decides a numeric offset |
| Rfc3339.CheckFraction | src/claude_code.rs:1420-1453 | decides a fraction of any length and the zone after it |
| Rfc3339.TimestampExactly | src/codex.rs:1374-1481 | the grammar and its byte-by-byte description agree |
| Rfc3339.FormatInjective | src/codex.rs:1374-1481 | a timestamp denotes one date and time |
| CodexTurns.GroupEvents | src/codex.rs:485-567 | the current turn and the map of calls in flight compute a fold over the events |
| CodexTurns.RunWellGrouped | src/codex.rs:485-567 | a turn sits at its index and a stored result answers its call |
| CodexTurns.CallsAreKept | src/codex.rs:518-534 | every function call becomes one slot, in order, or comes before any assistant message |
| CodexTurns.UnknownExactly | src/codex.rs:518-553 | the unknown lines are the unrecognised events, the calls without a turn and the outputs without a call in flight |
| ClaudeTurns.OpenTurn | src/claude_code.rs:404-430 | one slot per tool use with an ID, and the map of its last slot |
| ClaudeTurns.FillTurn | src/claude_code.rs:440-458 | each result goes to the last slot with its ID |
| ClaudeTurns.FillActive | src/claude_code.rs:360-372 | the active turn is the last of all turns, flushed or not |
| ClaudeTurns.GroupEvents | src/claude_code.rs:374-499 | the loop computes a fold in which the last turn is always active |
| ClaudeTurns.RunWellGrouped | src/claude_code.rs:374-499 | a turn sits at its index, mapped slots are in range, and a stored result answers its call |
| ClaudeTurns.SilentMessagesDoNotMatter | src/claude_code.rs:459-475 | a plain user message without text may be left out |
| ClaudeTurns.UsesAreKept | src/claude_code.rs:404-430 | over a transcript every tool use with an ID becomes exactly one slot, in order |
| ClaudeTurns.OpenTurnHoldsAnswers | src/claude_code.rs:360-499 | the last slot with an ID holds the last result for it since its assistant message, and no other slot holds any |
| ClaudeTurns.EveryTurnHoldsAnswers | src/claude_code.rs:360-499 | every turn holds the results given up to the next assistant message, and is not changed after |
| AntigravityTurns.GroupSteps | src/antigravity.rs:383-452 | the turns show calls and accepted results paired by position |
| AntigravityTurns.AnswerTurn | src/antigravity.rs:437-448 | a result goes to the first pending slot, or nowhere |
| AntigravityTurns.TurnsInOrder | src/antigravity.rs:383-452 | a turn sits at its index and filled slots form a prefix |
| AntigravityTurns.ResultsFollowCalls | src/antigravity.rs:408-448 | the k-th accepted result of a turn belongs to its k-th call |
| AntigravityTurns.ClosedTurnsStay | src/antigravity.rs:387-402 | a turn is not changed after the next one starts |
| Lcov.ReadRecords | src/coverage_capture.rs:401-488 | the accumulators of the blocks, unless stray text comes before any record |
| Lcov.ParseLcov | src/coverage_capture.rs:390-536 | succeeds exactly with a source file, no stray text and no error message; the files stably sorted by key, with their sums |
| LcovFacts.BlockDependsOnCounts | src/coverage_capture.rs:424-477 | permuting or repeating the counts of a block changes nothing |
| LcovFacts.ReportDependsOnCounts | src/coverage_capture.rs:390-536 | two reports that differ so in one block are read alike and give the same parse |
| LcovFacts.ParseIsDetermined | src/coverage_capture.rs:530 | the stable sort leaves one list of files and one parse |
| Lcov.SumCounts | src/coverage_capture.rs:544-552 | the sums over the files |
| LcovFacts.CoveredWithinTotal | src/coverage_capture.rs:494-552 | covered is at most total in every file and every sum |
| Merging.MergeDependsOnSet | src/coverage_capture.rs:425-475 | merging by a join depends on the set of values only |
| FileResolver.ResolveFile | src/coverage_capture.rs:1003-1031 | the exact path, else the longest suffix at a slash, in any order of the entries; the tie flag is never set |
| FileResolver.SuffixesOfALength | src/coverage_capture.rs:1013-1027 | equally long suffixes of one path are the same path |
| FileResolver.LongestExists | src/coverage_capture.rs:1003-1031 | a path stays unresolved only when no indexed path is a suffix |

## Left out

- The repository identity and snapshot of a bundle's manifest, and the order of its list of
  unresolved links: copied or sorted for display.
- BLAKE3, JSON encoding, percentages, messages and summaries: parameters or absent.
- Environment variables, key generation and the engine behind the encrypted store: only the
  directory and the answers of the host are modelled.
- Redaction, the debounce, the audit trail and the scans for secrets and protected payloads:
  parameters of the models that call them.
- The workflow drivers of the citation audit: which records they push is arbitrary here.
- The per-workflow log diagnostic of the citation audit, and its sorted output: no further
  decision rests on them.
- CriteriaOrder.OrderFreeExactly: exact for what the census reads; two readings that differ can
  still give the same rows.
- DecideRuns.DeferralKeepsOpen: a candidate that names the prompt or the decision of its own
  deferral as the one it supersedes is left aside.
- Diagnostics, displayed parents, display limits and sanitised text of the census.
- Bundle.CountCoverage: one method stands for the two loops that export and verification
  write out separately.
- Scrubbing edits a record in place; records are values here, so aliasing is not captured.
- Prose, thinking, usage and timestamps of turns beyond what correlation needs.
- Lcov.ParseLcov: sums are unbounded, as counts are far below 64 bits; the JSON coverage format
  and the percentages are not part of this model.
- EncryptedStore.DataDir.WriteMarker: syncing to disk is not modelled, and a rename is atomic.
- Rust string lengths are bytes and the lengths here are characters; the comparisons made are
  the same for both.
- Documentation ingest, the build script, calibration, benchmarks, extraction and embeddings.
