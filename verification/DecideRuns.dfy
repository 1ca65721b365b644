/**
 Invariants of the policy store over every run that appends what accepted
 requests generate, interleaved with ingests of any record that is neither a
 decision nor a durable policy record.
 */
module DecideRuns {
  import opened Wrappers
  import opened Decide

  datatype Event =
    | Decides(req: Request, env: Env, added: seq<Record>)
    | Ingests(record: Record)

  predicate IsPolicy(r: Record) {
    r.Node? && IsPolicyKind(r.kind)
  }

  predicate IsForeign(r: Record) {
    !IsPolicy(r) && !(r.Node? && r.kind.PromotionDecision?)
  }

  ghost predicate Next(s: seq<Record>, ev: Event, s': seq<Record>) {
    match ev
    case Decides(req, env, added) => Generates(s, req, env, added) && s' == s + added
    case Ingests(record) => IsForeign(record) && s' == s + [record]
  }

  ghost predicate IsRun(stores: seq<seq<Record>>, events: seq<Event>) {
    && |stores| == |events| + 1
    && (forall i :: 0 <= i < |stores[0]| ==> IsForeign(stores[0][i]))
    && forall i :: 0 <= i < |events| ==> Next(stores[i], events[i], stores[i + 1])
  }

  // ---------------------------------------------------------------- the invariant

  ghost predicate OneTerminal(s: seq<Record>) {
    forall i, j, c :: 0 <= i < |s| && 0 <= j < |s| && DecidesFinally(s[i], c) && DecidesFinally(s[j], c) ==> i == j
  }

  predicate IsRevoked(r: Record) {
    IsPolicy(r) && r.context.activeTo.Some?
  }

  // No copy of a durable record, active or revoked, follows a revoked one.
  ghost predicate RevokedIsLast(s: seq<Record>) {
    forall i, j :: 0 <= i < j < |s| && IsRevoked(s[i]) && IsPolicy(s[j]) ==> s[i].id != s[j].id
  }

  // `n` are existing evidence nodes the candidate cites: distinct, three or
  // more, and not all from one session.
  ghost predicate EvidenceSet(s: seq<Record>, candidate: Record, n: set<Record>) {
    && candidate.Node? && candidate.context.supporting.Some?
    && (forall r :: r in n ==> r in s && r.Node? && IsEvidenceKind(r.kind) && r.sessionId.Some?
                               && r.id in Targets(candidate.context.supporting.value))
    && (forall r, q :: r in n && q in n && r.id == q.id ==> r == q)
    && |n| >= 3
    && exists r, q :: r in n && q in n && r.sessionId != q.sessionId
  }

  predicate MaterializedBy(d: Record, r: Record) {
    && d.Node? && d.kind.PromotionDecision? && r.Node?
    && r.id.DurableId? && r.id.decision.DecisionId?
    && d.id == r.id.decision && r.context.approvalDecisionId == Some(d.id)
    && d.context.materializedRecordId == Some(r.id)
    && d.context.candidateId == Some(r.id.decision.candidate)
    && d.context.outcome.Some? && IsApproving(d.context.outcome.value)
  }

  ghost predicate BackedBy(s: seq<Record>, r: Record, d: Record, c: Record, n: set<Record>) {
    && d in s && MaterializedBy(d, r)
    && c in s && IsCandidate(Some(c)) && c.id == r.id.decision.candidate
    && EvidenceSet(s, c, n)
  }

  ghost predicate IsBacked(s: seq<Record>, r: Record) {
    exists d, c, n :: BackedBy(s, r, d, c, n)
  }

  ghost predicate Inv(s: seq<Record>) {
    && OneTerminal(s)
    && RevokedIsLast(s)
    && forall i :: 0 <= i < |s| && IsPolicy(s[i]) ==> IsBacked(s, s[i])
  }

  // ---------------------------------------------------------------- growth

  lemma BackedGrows(s: seq<Record>, more: seq<Record>, r: Record)
    requires IsBacked(s, r)
    ensures IsBacked(s + more, r)
  {
    var d, c, n :| BackedBy(s, r, d, c, n);
    assert BackedBy(s + more, r, d, c, n);
  }

  // A durable record comes from a terminal decision on its candidate.
  lemma BackedHasTerminal(s: seq<Record>, r: Record)
    requires IsBacked(s, r)
    ensures r.id.DurableId? && r.id.decision.DecisionId? && HasTerminal(s, r.id.decision.candidate)
  {
  }

  lemma InjectiveImage(s: seq<Record>, ids: set<Id>, n: set<Record>)
    requires forall id :: id in ids ==> Latest(s, id).Some?
    requires n == set id | id in ids :: Latest(s, id).value
    ensures |n| == |ids|
  {
    if ids != {} {
      var id :| id in ids;
      var rest := set x | x in ids - {id} :: Latest(s, x).value;
      InjectiveImage(s, ids - {id}, rest);
      assert n == rest + {Latest(s, id).value};
    }
  }

  lemma TwoMembers<T>(s: set<T>)
    requires |s| >= 2
    ensures exists a, b :: a in s && b in s && a != b
  {
    var a :| a in s;
    assert |s - {a}| >= 1;
    var b :| b in s - {a};
  }

  lemma SupportGivesEvidence(s: seq<Record>, candidate: Record)
    requires candidate.Node? && candidate.context.supporting.Some?
    requires Supported(s, candidate.context.supporting.value)
    ensures exists n :: EvidenceSet(s, candidate, n)
  {
    var ids := Targets(candidate.context.supporting.value);
    var n := set id | id in ids :: Latest(s, id).value;
    TargetsAreEvidence(s, ids, n);
    InjectiveImage(s, ids, n);
    TwoSessions(s, ids, n);
    assert EvidenceSet(s, candidate, n);
  }

  lemma TwoSessions(s: seq<Record>, ids: set<Id>, n: set<Record>)
    requires forall id :: id in ids ==> EvidenceNode(s, id)
    requires |Sessions(s, ids)| >= 2 && n == set id | id in ids && Latest(s, id).Some? :: Latest(s, id).value
    requires forall r :: r in n ==> r.Node?
    ensures exists r, q :: r in n && q in n && r.sessionId != q.sessionId
  {
    TwoMembers(Sessions(s, ids));
    var a, b :| a in Sessions(s, ids) && b in Sessions(s, ids) && a != b;
    var x :| x in ids && SessionOf(s, x) == a;
    var y :| y in ids && SessionOf(s, y) == b;
    assert Latest(s, x).value in n && Latest(s, y).value in n;
  }

  lemma TargetsAreEvidence(s: seq<Record>, ids: set<Id>, n: set<Record>)
    requires forall id :: id in ids ==> EvidenceNode(s, id)
    requires n == set id | id in ids && Latest(s, id).Some? :: Latest(s, id).value
    ensures forall r :: r in n ==> r in s && r.Node? && IsEvidenceKind(r.kind) && r.sessionId.Some? && r.id in ids
    ensures forall r, q :: r in n && q in n && r.id == q.id ==> r == q
  {
  }

  // ---------------------------------------------------------------- one step

  // The records a request generates: the prompt first, the decision last, in
  // between the durable record and perhaps the redacted candidate.
  lemma GeneratedKinds(s: seq<Record>, req: Request, env: Env, added: seq<Record>)
    requires Generates(s, req, env, added)
    ensures |added| >= 2 && added[0] == PromptOf(req, env)
    ensures var last := added[|added| - 1];
            last.Node? && last.kind.PromotionDecision? && last.id == DecisionIdOf(req, env)
            && last.context.outcome == Some(req.outcome) && last.context.candidateId == Some(req.candidateId)
    ensures forall i :: 0 < i < |added| - 1 ==>
              added[i].Node? && IsApproving(req.outcome)
              && if i == 1 then IsPolicyKind(added[i].kind) else added[i].kind.PromoteCandidate?
  {
    if IsApproving(req.outcome) {
      var candidate := Latest(s, req.candidateId).value;
      AddedIsPolicy(s, req, env, candidate, added[1]);
      var rest := added[2..];
      assert |rest| == if CandidateTouched(env, candidate.context) then 2 else 1;
    }
  }

  lemma AddedIsPolicy(s: seq<Record>, req: Request, env: Env, candidate: Record, durable: Record)
    requires candidate.Node? && Adds(s, req, env, candidate, durable)
    ensures IsPolicy(durable)
  {
  }

  // Of them only the last decides, and only the second can be a policy record.
  lemma GeneratedShape(s: seq<Record>, req: Request, env: Env, added: seq<Record>)
    requires Generates(s, req, env, added)
    ensures |added| >= 2
    ensures forall i, c :: 0 <= i < |added| && DecidesFinally(added[i], c) ==>
              i == |added| - 1 && c == req.candidateId && IsTerminal(req.outcome)
    ensures forall i :: 0 <= i < |added| && IsPolicy(added[i]) ==> i == 1 && IsApproving(req.outcome)
  {
    GeneratedKinds(s, req, env, added);
  }

  // The durable record an approval adds is backed, and no copy of it has been revoked.
  lemma AddedIsBacked(s: seq<Record>, req: Request, env: Env, added: seq<Record>)
    requires Inv(s) && Generates(s, req, env, added) && IsApproving(req.outcome)
    ensures IsBacked(s + added, added[1])
    ensures forall i :: 0 <= i < |s| && IsRevoked(s[i]) ==> s[i].id != added[1].id
  {
    var candidate := Latest(s, req.candidateId).value;
    var c := RedactCandidate(env, candidate).context;
    if c.ruleKind.value == Revocation {
      var id := RevocationTarget(c).value;
      RevocationIsBacked(s, added, id, FirstActive(s, id).value, TimeOf(req, env));
      assert forall i :: 0 <= i < |s| ==> !IsRevokedCopy(s[i], id);
    } else {
      MaterializationIsBacked(s, req, env, candidate, added);
      forall i | 0 <= i < |s| && IsRevoked(s[i]) ensures s[i].id != added[1].id {
        BackedHasTerminal(s, s[i]);
      }
    }
  }

  lemma RevocationIsBacked(s: seq<Record>, added: seq<Record>, id: Id, original: Record, at: string)
    requires Inv(s) && original in s && IsPolicy(original)
    ensures IsBacked(s + added, Revoke(original, at))
  {
    var i :| 0 <= i < |s| && s[i] == original;
    var d, c, n :| BackedBy(s, original, d, c, n);
    assert BackedBy(s + added, Revoke(original, at), d, c, n);
  }

  lemma MaterializationIsBacked(s: seq<Record>, req: Request, env: Env, candidate: Record, added: seq<Record>)
    requires Some(candidate) == Latest(s, req.candidateId) && IsCandidate(Some(candidate)) && IsApproving(req.outcome)
    requires candidate.context.supporting.Some? && Supported(s, candidate.context.supporting.value)
    requires |added| >= 2 && added == Appended(req, env, candidate, added[1])
    requires added[1].Node? && added[1].id.DurableId? && added[1].id.decision == DecisionIdOf(req, env)
    requires added[1].context.approvalDecisionId == Some(DecisionIdOf(req, env))
    ensures IsBacked(s + added, added[1])
  {
    SupportGivesEvidence(s, candidate);
    var n :| EvidenceSet(s, candidate, n);
    var decision := added[|added| - 1];
    assert decision in added;
    assert EvidenceSet(s + added, candidate, n);
    assert BackedBy(s + added, added[1], decision, candidate, n);
  }

  lemma OneTerminalExtends(s: seq<Record>, added: seq<Record>)
    requires OneTerminal(s) && OneTerminal(added)
    requires forall k, c :: 0 <= k < |added| && DecidesFinally(added[k], c) ==> !HasTerminal(s, c)
    ensures OneTerminal(s + added)
  {
    var t := s + added;
    assert forall i :: |s| <= i < |t| ==> t[i] == added[i - |s|];
    forall i, j, c | 0 <= i < |t| && 0 <= j < |t| && DecidesFinally(t[i], c) && DecidesFinally(t[j], c)
      ensures i == j
    {
      assert i < |s| ==> HasTerminal(s, c);
      assert j < |s| ==> HasTerminal(s, c);
    }
  }

  lemma RevokedIsLastExtends(s: seq<Record>, added: seq<Record>)
    requires RevokedIsLast(s)
    requires forall j, k :: 0 <= j < |added| && 0 <= k < |added| && IsPolicy(added[j]) && IsPolicy(added[k]) ==> j == k
    requires forall i, k :: 0 <= i < |s| && 0 <= k < |added| && IsRevoked(s[i]) && IsPolicy(added[k]) ==> s[i].id != added[k].id
    ensures RevokedIsLast(s + added)
  {
    var t := s + added;
    assert forall i :: |s| <= i < |t| ==> t[i] == added[i - |s|];
    forall i, j | 0 <= i < j < |t| && IsRevoked(t[i]) && IsPolicy(t[j]) ensures t[i].id != t[j].id {
    }
  }

  lemma BackedExtends(s: seq<Record>, added: seq<Record>)
    requires forall i :: 0 <= i < |s| && IsPolicy(s[i]) ==> IsBacked(s, s[i])
    requires forall k :: 0 <= k < |added| && IsPolicy(added[k]) ==> IsBacked(s + added, added[k])
    ensures forall i :: 0 <= i < |s + added| && IsPolicy((s + added)[i]) ==> IsBacked(s + added, (s + added)[i])
  {
    var t := s + added;
    forall i | 0 <= i < |t| && IsPolicy(t[i]) ensures IsBacked(t, t[i]) {
      if i < |s| {
        BackedGrows(s, added, s[i]);
      } else {
        assert t[i] == added[i - |s|];
      }
    }
  }

  lemma DecisionKeepsInv(s: seq<Record>, req: Request, env: Env, added: seq<Record>)
    requires Inv(s) && Generates(s, req, env, added)
    ensures Inv(s + added)
  {
    GeneratedShape(s, req, env, added);
    if IsApproving(req.outcome) {
      AddedIsBacked(s, req, env, added);
    }
    OneTerminalExtends(s, added);
    RevokedIsLastExtends(s, added);
    BackedExtends(s, added);
  }

  lemma IngestKeepsInv(s: seq<Record>, r: Record)
    requires Inv(s) && IsForeign(r)
    ensures Inv(s + [r])
  {
    OneTerminalExtends(s, [r]);
    RevokedIsLastExtends(s, [r]);
    BackedExtends(s, [r]);
  }

  lemma {:induction false} RunInvariant(stores: seq<seq<Record>>, events: seq<Event>, i: nat)
    requires IsRun(stores, events) && i < |stores|
    ensures Inv(stores[i])
  {
    if i > 0 {
      RunInvariant(stores, events, i - 1);
      assert Next(stores[i - 1], events[i - 1], stores[i]);
      match events[i - 1]
      case Decides(req, env, added) => DecisionKeepsInv(stores[i - 1], req, env, added);
      case Ingests(record) => IngestKeepsInv(stores[i - 1], record);
    }
  }

  // ---------------------------------------------------------------- results

  lemma {:induction false} StoresGrow(stores: seq<seq<Record>>, events: seq<Event>, i: nat, j: nat)
    requires IsRun(stores, events) && i <= j < |stores|
    ensures stores[i] <= stores[j]
  {
    if i < j {
      StoresGrow(stores, events, i, j - 1);
      assert Next(stores[j - 1], events[j - 1], stores[j]);
    }
  }

  // A candidate has at most one terminal decision, and once it has one every
  // later request on it is refused.
  lemma DecidedOnce(stores: seq<seq<Record>>, events: seq<Event>, i: nat, j: nat, candidate: Id,
                    req: Request, env: Env, added: seq<Record>)
    requires IsRun(stores, events) && i <= j < |stores|
    requires HasTerminal(stores[i], candidate) && req.candidateId == candidate
    ensures exists d :: 0 <= d < |stores[i]| && DecidesFinally(stores[i][d], candidate)
              && forall e :: 0 <= e < |stores[j]| && DecidesFinally(stores[j][e], candidate) ==> e == d
    ensures !Generates(stores[j], req, env, added)
  {
    RunInvariant(stores, events, j);
    StoresGrow(stores, events, i, j);
    var d :| 0 <= d < |stores[i]| && DecidesFinally(stores[i][d], candidate);
    assert stores[j][d] == stores[i][d];
    assert HasTerminal(stores[j], candidate);
  }

  // What the suppression rule may depend on: the latest record of the candidate and of the
  // one it supersedes, other candidates, and rejections.
  predicate IsReadBySuppression(s: seq<Record>, c: Id, r: Record) {
    || r.id == c
    || Supersedes(s, c) == Some(r.id)
    || (r.Node? && r.kind == PromoteCandidate)
    || (r.Node? && r.kind == PromotionDecision && r.context.outcome == Some(Rejected))
  }

  function Supersedes(s: seq<Record>, c: Id): Option<Id> {
    var latest := Latest(s, c);
    if latest.Some? && latest.value.Node? then latest.value.supersededBy else None
  }

  ghost predicate SuppressionReads(env: Env) {
    forall s, r, c :: !IsReadBySuppression(s, c, r) ==> env.suppressed(s + [r], c) == env.suppressed(s, c)
  }

  // A deferral changes nothing a later request on the candidate depends on, unless the
  // candidate supersedes the very prompt or decision that defers it.
  lemma DeferralKeepsOpen(s: seq<Record>, req: Request, env: Env, added: seq<Record>, later: Request, env': Env)
    requires Generates(s, req, env, added) && req.outcome == Deferred
    requires later.candidateId == req.candidateId
    requires SuppressionReads(env')
    requires forall r :: r in added ==> Supersedes(s, later.candidateId) != Some(r.id)
    ensures Decidable(s + added, later, env') <==> Decidable(s, later, env')
    ensures Latest(s + added, later.candidateId) == Latest(s, later.candidateId)
  {
    var c := later.candidateId;
    var prompt, decision := PromptOf(req, env), DecisionOf(req, env, None, None);
    MintedIsNew(c, TimeOf(req, env), req.surface, Deferred);
    assert added == [prompt, decision] && added[0] in added && added[1] in added;
    assert s + added == (s + [prompt]) + [decision];
    OtherRecordKeepsLookups(s, prompt, c);
    OtherRecordKeepsLookups(s + [prompt], decision, c);
    assert !IsReadBySuppression(s, c, prompt) && !IsReadBySuppression(s + [prompt], c, decision);
  }

  lemma OtherRecordKeepsLookups(s: seq<Record>, r: Record, c: Id)
    requires r.id != c && !DecidesFinally(r, c)
    ensures Latest(s + [r], c) == Latest(s, c)
    ensures HasTerminal(s + [r], c) <==> HasTerminal(s, c)
  {
    assert (s + [r])[..|s|] == s;
    if HasTerminal(s, c) {
      var i :| 0 <= i < |s| && DecidesFinally(s[i], c);
      assert (s + [r])[i] == s[i];
    }
  }

  lemma MintedIsNew(c: Id, at: string, surface: Surface, outcome: Outcome)
    ensures PromptId(c, at, surface) != c
    ensures DecisionId(c, PromptId(c, at, surface), at, outcome) != c
  {
  }

  // A durable record is revoked at most once, and after that no copy of it,
  // active or not, is ever added.
  lemma RevokedOnceAndForAll(stores: seq<seq<Record>>, events: seq<Event>, i: nat, p: nat, q: nat)
    requires IsRun(stores, events) && i < |stores|
    requires p < |stores[i]| && q < |stores[i]| && IsRevoked(stores[i][p])
    requires IsPolicy(stores[i][q]) && stores[i][q].id == stores[i][p].id
    ensures q <= p
    ensures IsRevoked(stores[i][q]) ==> q == p
  {
    RunInvariant(stores, events, i);
  }

  // Every durable record in the store comes from exactly one decision, an
  // approving one, on a candidate with enough independent evidence in the store.
  lemma DurablesAreBacked(stores: seq<seq<Record>>, events: seq<Event>, i: nat, p: nat)
    requires IsRun(stores, events) && i < |stores|
    requires p < |stores[i]| && IsPolicy(stores[i][p])
    ensures IsBacked(stores[i], stores[i][p])
    ensures exists d :: IsTheDecision(stores[i], d, stores[i][p])
  {
    RunInvariant(stores, events, i);
    OneDecision(stores[i], stores[i][p]);
  }

  ghost predicate IsTheDecision(s: seq<Record>, d: int, r: Record) {
    && 0 <= d < |s| && MaterializedBy(s[d], r)
    && forall e :: 0 <= e < |s| && MaterializedBy(s[e], r) ==> e == d
  }

  lemma OneDecision(s: seq<Record>, r: Record)
    requires OneTerminal(s) && IsBacked(s, r)
    ensures exists d :: IsTheDecision(s, d, r)
  {
    var decision, c, n :| BackedBy(s, r, decision, c, n);
    var d :| 0 <= d < |s| && s[d] == decision;
    forall e | 0 <= e < |s| && MaterializedBy(s[e], r) ensures e == d {
      assert DecidesFinally(s[e], r.id.decision.candidate) && DecidesFinally(s[d], r.id.decision.candidate);
    }
    assert IsTheDecision(s, d, r);
  }

  // ---------------------------------------------------------------- edges

  lemma LatestIsNode(records: seq<Record>, id: Id)
    requires Latest(records, id).Some? && Latest(records, id).value.Node?
    ensures LatestNode(records, id) == Latest(records, id)
    decreases |records|
  {
    if records[|records| - 1].id != id {
      LatestIsNode(records[..|records| - 1], id);
    }
  }

  // The edges written beside an accepted request say what it did: it prompted
  // for and decided on its candidate, and the durable record it added was
  // revoked when that record is inactive, materialised when it is active.
  lemma EdgesTellWhatWasDone(s: seq<Record>, req: Request, env: Env, added: seq<Record>)
    requires Generates(s, req, env, added)
    ensures EdgesOf(s, LastOfKind(added, PromotionPrompt), LastOfKind(added, PromotionDecision)) ==
            [Link(PromptedFor, PromptIdOf(req, env), req.candidateId),
             Link(DecidedOn, DecisionIdOf(req, env), req.candidateId)]
            + if !IsApproving(req.outcome) then []
              else if IsRevoked(added[1]) then [Link(RevokedBy, added[1].id, DecisionIdOf(req, env))]
              else [Link(MaterializedAs, DecisionIdOf(req, env), added[1].id)]
  {
    LastPromptAndDecision(s, req, env, added);
    LatestIsNode(s, req.candidateId);
    if IsApproving(req.outcome) {
      RevokedExactly(s, req, env, Latest(s, req.candidateId).value, added[1]);
    } else {
      NothingAdded(s, req, env, added);
    }
  }

  lemma NothingAdded(s: seq<Record>, req: Request, env: Env, added: seq<Record>)
    requires Generates(s, req, env, added) && !IsApproving(req.outcome)
    ensures added[|added| - 1] == DecisionOf(req, env, None, None)
  {
  }

  lemma LastPromptAndDecision(s: seq<Record>, req: Request, env: Env, added: seq<Record>)
    requires Generates(s, req, env, added)
    ensures LastOfKind(added, PromotionPrompt) == Some(PromptOf(req, env))
    ensures LastOfKind(added, PromotionDecision) == Some(added[|added| - 1])
  {
    GeneratedKinds(s, req, env, added);
    FirstAndLast(added);
  }

  lemma FirstAndLast(a: seq<Record>)
    requires |a| >= 2
    requires a[0].Node? && a[0].kind == PromotionPrompt
    requires a[|a| - 1].Node? && a[|a| - 1].kind == PromotionDecision
    requires forall i :: 0 < i < |a| - 1 ==> a[i].Node? && a[i].kind != PromotionPrompt
    ensures LastOfKind(a, PromotionPrompt) == Some(a[0])
    ensures LastOfKind(a, PromotionDecision) == Some(a[|a| - 1])
  {
    PromptComesFirst(a[..|a| - 1]);
  }

  lemma RevokedExactly(s: seq<Record>, req: Request, env: Env, candidate: Record, durable: Record)
    requires candidate.Node? && Adds(s, req, env, candidate, durable)
    ensures IsRevoked(durable) <==> candidate.context.ruleKind == Some(Revocation)
  {
  }

  lemma PromptComesFirst(a: seq<Record>)
    requires a != [] && a[0].Node? && a[0].kind == PromotionPrompt
    requires forall i :: 1 <= i < |a| ==> !(a[i].Node? && a[i].kind == PromotionPrompt)
    ensures LastOfKind(a, PromotionPrompt) == Some(a[0])
  {
    if |a| > 1 {
      PromptComesFirst(a[..|a| - 1]);
    }
  }
}
