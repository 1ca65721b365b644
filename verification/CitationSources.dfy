/**
 When a runtime observation is cited through a log source (src/citation_audit.rs:574-714):
 which sources can answer for it, and which one is asked.
 */
module CitationSources {
  import opened Wrappers
  import opened Liveness
  import opened CitationClassify

  // ---------------------------------------------------------------- the sources in reach

  // The last visible source record with the ID has a hash.
  predicate IsHashed(writes: seq<Write>, records: seq<Record>, t: Id) {
    var s := LastSource(writes, records, t);
    s.Some? && s.value.hash != ""
  }

  predicate HasPath(writes: seq<Write>, records: seq<Record>, t: Id) {
    var s := LastSource(writes, records, t);
    s.Some? && s.value.path != ""
  }

  // A capture link to a source with a hash.
  predicate Captures(writes: seq<Write>, records: seq<Record>, from: Id, t: Id) {
    Linked(writes, records, CapturedFrom, from, t) && IsHashed(writes, records, t)
  }

  ghost predicate CapturesSome(writes: seq<Write>, records: seq<Record>, from: Id) {
    exists t :: Captures(writes, records, from, t)
  }

  // Some log source with a hash is reached from `id` by a capture link, or by an
  // aggregation link and a capture link.
  ghost predicate ReachesSource(writes: seq<Write>, records: seq<Record>, id: Id) {
    || CapturesSome(writes, records, id)
    || exists via :: Linked(writes, records, Aggregates, id, via) && CapturesSome(writes, records, via)
  }

  // A source that can answer for `id`: one it captures directly, or if there is none,
  // one that a signature it aggregates captures.
  ghost predicate CanAnswer(writes: seq<Write>, records: seq<Record>, id: Id, t: Id) {
    || Captures(writes, records, id, t)
    || (!CapturesSome(writes, records, id)
        && exists via :: Linked(writes, records, Aggregates, id, via) && Captures(writes, records, via, t))
  }

  lemma CapturedViaExactly(index: LogIndex, writes: seq<Write>, records: seq<Record>, via: Id)
    requires Mirrors(index, writes, records)
    ensures CapturedVia(index, via).Some? <==> CapturesSome(writes, records, via)
  {
    if CapturedVia(index, via).Some? {
      var t := CapturedViaIsCaptured(index, writes, records, via);
    }
    if CapturesSome(writes, records, via) {
      var t :| Captures(writes, records, via, t);
      assert SourceIn(index, t) == LastSource(writes, records, t);
      assert t in Targets(index.capturedFrom, via) && HasHash(index, t);
    }
  }

  lemma CapturedViaIsCaptured(index: LogIndex, writes: seq<Write>, records: seq<Record>, via: Id) returns (t: Id)
    requires Mirrors(index, writes, records) && CapturedVia(index, via).Some?
    ensures Captures(writes, records, via, t) && LastSource(writes, records, t) == CapturedVia(index, via)
  {
    t :| t in Targets(index.capturedFrom, via) && t in index.sources && index.sources[t] == CapturedVia(index, via).value;
    assert SourceIn(index, t) == LastSource(writes, records, t);
  }

  // At least one source is enough to find one, whatever the order of the links.
  lemma ResolvesExactly(records: seq<Record>, index: LogIndex, id: Id)
    requires Mirrors(index, Writes(records), records)
    ensures ResolveSource(index, id).Some? <==> ReachesSource(Writes(records), records, id)
  {
    CapturedViaExactly(index, Writes(records), records, id);
    FirstCapturedExactly(index, Writes(records), records, id);
  }

  lemma FirstCapturedExactly(index: LogIndex, writes: seq<Write>, records: seq<Record>, id: Id)
    requires Mirrors(index, writes, records)
    ensures FirstCaptured(index, Targets(index.aggregates, id)).Some? <==>
            exists via :: Linked(writes, records, Aggregates, id, via) && CapturesSome(writes, records, via)
  {
    var signatures := Targets(index.aggregates, id);
    if FirstCaptured(index, signatures).Some? {
      var via :| via in signatures && CapturedVia(index, via).Some?;
      CapturedViaExactly(index, writes, records, via);
      assert Linked(writes, records, Aggregates, id, via);
    }
    if via :| Linked(writes, records, Aggregates, id, via) && CapturesSome(writes, records, via) {
      CapturedViaExactly(index, writes, records, via);
      assert via in signatures;
    }
  }

  // What is found is a source that can answer, and it has a hash.
  lemma FoundCanAnswer(records: seq<Record>, index: LogIndex, id: Id) returns (t: Id)
    requires Mirrors(index, Writes(records), records) && ResolveSource(index, id).Some?
    ensures CanAnswer(Writes(records), records, id, t)
    ensures LastSource(Writes(records), records, t) == ResolveSource(index, id)
  {
    var writes := Writes(records);
    CapturedViaExactly(index, writes, records, id);
    if CapturedVia(index, id).Some? {
      t := CapturedViaIsCaptured(index, writes, records, id);
    } else {
      var via :| via in Targets(index.aggregates, id) && CapturedVia(index, via) == ResolveSource(index, id);
      t := CapturedViaIsCaptured(index, writes, records, via);
      assert Linked(writes, records, Aggregates, id, via);
    }
  }

  // The same links, with `to` the first target of `from`.
  function ToFront(links: map<Id, seq<Id>>, from: Id, to: Id): map<Id, seq<Id>> {
    links[from := [to] + Targets(links, from)]
  }

  lemma ToFrontMirrors(index: LogIndex, writes: seq<Write>, records: seq<Record>, from: Id, to: Id)
    requires Mirrors(index, writes, records)
    ensures Linked(writes, records, CapturedFrom, from, to) ==>
            Mirrors(index.(capturedFrom := ToFront(index.capturedFrom, from, to)), writes, records)
    ensures Linked(writes, records, Aggregates, from, to) ==>
            Mirrors(index.(aggregates := ToFront(index.aggregates, from, to)), writes, records)
  {
    if Linked(writes, records, CapturedFrom, from, to) { ToFrontKeepsTargets(index.capturedFrom, from, to); }
    if Linked(writes, records, Aggregates, from, to) { ToFrontKeepsTargets(index.aggregates, from, to); }
  }

  lemma ToFrontKeepsTargets(links: map<Id, seq<Id>>, from: Id, to: Id)
    requires to in Targets(links, from)
    ensures forall id, t :: t in Targets(ToFront(links, from, to), id) <==> t in Targets(links, id)
  {
  }

  // Any source that can answer does so under some index.
  lemma SomeIndexAnswers(records: seq<Record>, id: Id, t: Id) returns (index: LogIndex)
    requires CanAnswer(Writes(records), records, id, t)
    ensures Mirrors(index, Writes(records), records)
    ensures t in index.sources && ResolveSource(index, id) == Some(index.sources[t])
  {
    var writes := Writes(records);
    index := IndexOf(writes, records);
    IndexMirrors(writes, records);
    if Captures(writes, records, id, t) {
      index := PutFirst(index, writes, records, id, t);
    } else {
      var via :| Linked(writes, records, Aggregates, id, via) && Captures(writes, records, via, t);
      ToFrontMirrors(index, writes, records, id, via);
      index := PutFirst(index.(aggregates := ToFront(index.aggregates, id, via)), writes, records, via, t);
      CapturedViaExactly(index, writes, records, id);
    }
  }

  lemma PutFirst(index: LogIndex, writes: seq<Write>, records: seq<Record>, via: Id, t: Id) returns (other: LogIndex)
    requires Mirrors(index, writes, records) && Captures(writes, records, via, t)
    ensures Mirrors(other, writes, records) && other.aggregates == index.aggregates
    ensures t in other.sources && CapturedVia(other, via) == Some(other.sources[t])
  {
    assert SourceIn(index, t) == LastSource(writes, records, t);
    ToFrontMirrors(index, writes, records, via, t);
    other := index.(capturedFrom := ToFront(index.capturedFrom, via, t));
  }

  // ---------------------------------------------------------------- runtime observations

  predicate IsCitedUnder(index: LogIndex, r: Record) {
    ClassifyProvenanced(index, r).row.status == Cited
  }

  // The source that is found has a path.
  predicate FindsPath(index: LogIndex, id: Id) {
    ResolveSource(index, id).Some? && ResolveSource(index, id).value.path != ""
  }

  // A log source answers for itself, anything else through its links.
  ghost predicate IsSourced(records: seq<Record>, r: Record) {
    if IsSource(r) then IsComplete(r.log.value.source)
    else ReachesSource(Writes(records), records, r.id) && AnswersHavePaths(Writes(records), records, r.id)
  }

  lemma CitedByFound(index: LogIndex, r: Record)
    requires r.trust == RuntimeObservation && r.protectedHandle.None? && !IsSource(r)
    ensures IsCitedUnder(index, r) <==> IsWellFormedLogId(r.id.text) && FindsPath(index, r.id)
    ensures !IsCitedUnder(index, r) ==> ClassifyProvenanced(index, r).row.status == MissingRequiredHandle
  {
  }

  // A log source is cited by its own payload, whatever else the store holds.
  lemma SourceCitesItself(index: LogIndex, r: Record)
    requires r.trust == RuntimeObservation && r.protectedHandle.None? && IsSource(r)
    ensures IsCitedUnder(index, r) <==> IsWellFormedLogId(r.id.text) && IsComplete(r.log.value.source)
  {
  }

  // Every visible source with a hash has a path.
  ghost predicate HashedHavePaths(writes: seq<Write>, records: seq<Record>) {
    forall q :: q in records && IsVisibleSource(writes, q) && q.log.value.source.hash != "" ==> q.log.value.source.path != ""
  }

  lemma {:induction false} LastHasPath(writes: seq<Write>, records: seq<Record>, t: Id)
    requires HashedHavePaths(writes, records) && IsHashed(writes, records, t)
    ensures HasPath(writes, records, t)
  {
    LastSourceMeans(writes, records, t, LastSource(writes, records, t).value);
  }

  // Any other runtime observation is never cited by its own ID alone: it needs a source
  // with a hash that it reaches. One is enough when all sources with a hash have a path.
  lemma RuntimeNeedsSource(records: seq<Record>, index: LogIndex, r: Record)
    requires Mirrors(index, Writes(records), records)
    requires r.trust == RuntimeObservation && r.protectedHandle.None? && !IsSource(r)
    ensures IsCitedUnder(index, r) ==> IsWellFormedLogId(r.id.text) && ReachesSource(Writes(records), records, r.id)
    ensures HashedHavePaths(Writes(records), records) ==>
      (IsCitedUnder(index, r) <==> IsWellFormedLogId(r.id.text) && ReachesSource(Writes(records), records, r.id))
  {
    CitedByFound(index, r);
    FindsPathWhenReached(records, index, r.id);
  }

  lemma FindsPathWhenReached(records: seq<Record>, index: LogIndex, id: Id)
    requires Mirrors(index, Writes(records), records)
    ensures FindsPath(index, id) ==> ReachesSource(Writes(records), records, id)
    ensures HashedHavePaths(Writes(records), records) && ReachesSource(Writes(records), records, id) ==> FindsPath(index, id)
  {
    ResolvesExactly(records, index, id);
    if HashedHavePaths(Writes(records), records) && ReachesSource(Writes(records), records, id) {
      var t := FoundCanAnswer(records, index, id);
      LastHasPath(Writes(records), records, t);
    }
  }

  // Every source that can answer has a path.
  ghost predicate AnswersHavePaths(writes: seq<Write>, records: seq<Record>, id: Id) {
    forall t :: CanAnswer(writes, records, id, t) ==> HasPath(writes, records, t)
  }

  lemma FindsPathExactly(records: seq<Record>, id: Id)
    ensures (forall index :: Mirrors(index, Writes(records), records) ==> FindsPath(index, id)) <==>
            ReachesSource(Writes(records), records, id) && AnswersHavePaths(Writes(records), records, id)
  {
    var writes := Writes(records);
    if forall index :: Mirrors(index, writes, records) ==> FindsPath(index, id) {
      IndexMirrors(writes, records);
      ResolvesExactly(records, IndexOf(writes, records), id);
      assert FindsPath(IndexOf(writes, records), id);
      forall t | CanAnswer(writes, records, id, t) ensures HasPath(writes, records, t) {
        var index := SomeIndexAnswers(records, id, t);
        assert FindsPath(index, id);
        assert SourceIn(index, t) == LastSource(writes, records, t);
      }
    }
    if ReachesSource(writes, records, id) && AnswersHavePaths(writes, records, id) {
      forall index | Mirrors(index, writes, records) ensures FindsPath(index, id) {
        ResolvesExactly(records, index, id);
        var t := FoundCanAnswer(records, index, id);
        assert HasPath(writes, records, t);
      }
    }
  }

  // In general one source is not enough: a runtime observation is cited, whatever the order
  // of its links, exactly when it is a log source with a hash and a path of its own, or
  // reaches a source and every one that can answer has a path.
  lemma RuntimeCitedExactly(records: seq<Record>, r: Record)
    requires r.trust == RuntimeObservation && r.protectedHandle.None?
    ensures (forall index :: Mirrors(index, Writes(records), records) ==> IsCitedUnder(index, r)) <==>
      IsWellFormedLogId(r.id.text) && IsSourced(records, r)
  {
    IndexMirrors(Writes(records), records);
    if IsSource(r) {
      forall index ensures IsCitedUnder(index, r) <==> IsWellFormedLogId(r.id.text) && IsComplete(r.log.value.source) {
        SourceCitesItself(index, r);
      }
    } else {
      forall index ensures IsCitedUnder(index, r) <==> IsWellFormedLogId(r.id.text) && FindsPath(index, r.id) {
        CitedByFound(index, r);
      }
      FindsPathExactly(records, r.id);
    }
  }

  // ---------------------------------------------------------------- the order of two links

  predicate IsSourceAt(r: Record, s: LogSource) {
    r.Node? && r.log == Some(SourcePayload(s))
  }

  predicate IsCaptureOf(e: Record, from: Id, to: Id) {
    e.Edge? && e.label_ == CapturedFrom && e.source == from && e.target == to
  }

  // Two sources with a hash, of which only `b` has a path: the edge written first decides
  // whether the row is cited.
  lemma FirstSourceDecides(r: Record, a: Record, b: Record, toA: Record, toB: Record)
    requires r.Node? && r.trust == RuntimeObservation && r.log == Some(OtherPayload) && r.protectedHandle.None?
    requires IsWellFormedLogId(r.id.text) && a.id != b.id
    requires IsSourceAt(a, LogSource("", "h1")) && IsSourceAt(b, LogSource("p", "h2"))
    requires IsCaptureOf(toA, r.id, a.id) && IsCaptureOf(toB, r.id, b.id)
    ensures var ab, ba := [r, a, b, toA, toB], [r, a, b, toB, toA];
      && ClassifyProvenanced(IndexOf(Writes(ab), ab), r).row.status == MissingRequiredHandle
      && ClassifyProvenanced(IndexOf(Writes(ba), ba), r).row.status == Cited
  {
    var ab, ba := [r, a, b, toA, toB], [r, a, b, toB, toA];
    TwoSources(r, a, b, toA, toB, a.id, b.id);
    TwoSources(r, a, b, toB, toA, b.id, a.id);
    FirstOfTwo(IndexOf(Writes(ab), ab), r.id, a.id, b.id);
    FirstOfTwo(IndexOf(Writes(ba), ba), r.id, b.id, a.id);
    CitedByFound(IndexOf(Writes(ab), ab), r);
    CitedByFound(IndexOf(Writes(ba), ba), r);
  }

  lemma FirstOfTwo(index: LogIndex, id: Id, s: Id, t: Id)
    requires Targets(index.capturedFrom, id) == [s, t] && HasHash(index, s)
    ensures ResolveSource(index, id) == Some(index.sources[s])
  {
  }

  lemma TwoSources(r: Record, a: Record, b: Record, e: Record, f: Record, s: Id, t: Id)
    requires r.Node? && r.log == Some(OtherPayload) && IsSource(a) && IsSource(b) && a.id != b.id
    requires IsCaptureOf(e, r.id, s) && IsCaptureOf(f, r.id, t)
    ensures var all := [r, a, b, e, f];
            var index := IndexOf(Writes(all), all);
            && index.sources == map[a.id := a.log.value.source, b.id := b.log.value.source]
            && Targets(index.capturedFrom, r.id) == [s, t]
  {
    var ws := Writes([r, a, b, e, f]);
    forall id ensures !Deleted(ws, id) { NoTombstone(ws, id); }
    FiveRecords(ws, r, a, b, e, f);
    var none := LogIndex(map[], map[], map[]);
    var three := AddToIndex(AddToIndex(AddToIndex(none, ws, r), ws, a), ws, b);
    assert three == LogIndex(map[a.id := a.log.value.source, b.id := b.log.value.source], map[], map[]);
    AddsCapture(three, ws, e, r.id, s);
    AddsCapture(AddToIndex(three, ws, e), ws, f, r.id, t);
  }

  lemma FiveRecords(ws: seq<Write>, r: Record, a: Record, b: Record, e: Record, f: Record)
    ensures IndexOf(ws, [r, a, b, e, f]) ==
      AddToIndex(AddToIndex(AddToIndex(AddToIndex(AddToIndex(LogIndex(map[], map[], map[]), ws, r), ws, a), ws, b), ws, e), ws, f)
  {
    OneMore(ws, [], r);
    OneMore(ws, [r], a);
    OneMore(ws, [r, a], b);
    OneMore(ws, [r, a, b], e);
    OneMore(ws, [r, a, b, e], f);
    assert [] + [r] == [r] && [r] + [a] == [r, a] && [r, a] + [b] == [r, a, b];
    assert [r, a, b] + [e] == [r, a, b, e] && [r, a, b, e] + [f] == [r, a, b, e, f];
  }

  lemma AddsCapture(index: LogIndex, ws: seq<Write>, e: Record, from: Id, to: Id)
    requires IsCaptureOf(e, from, to) && !Deleted(ws, e.id)
    ensures AddToIndex(index, ws, e).sources == index.sources
    ensures Targets(AddToIndex(index, ws, e).capturedFrom, from) == Targets(index.capturedFrom, from) + [to]
  {
  }

  lemma OneMore(ws: seq<Write>, records: seq<Record>, r: Record)
    ensures IndexOf(ws, records + [r]) == AddToIndex(IndexOf(ws, records), ws, r)
  {
    assert (records + [r])[..|records|] == records;
  }

  lemma NoTombstone(ws: seq<Write>, id: Id)
    requires forall w :: w in ws ==> !w.TombstoneOf?
    ensures !Deleted(ws, id)
  {
    assert forall i :: 0 <= i < |ws| ==> ws[i] in ws;
  }
}
