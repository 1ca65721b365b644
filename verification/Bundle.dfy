/**
 Evidence bundles (src/bundle.rs): export of the closure of a selection, scrubbed,
 hashed and sorted, and the offline verifier of such a bundle.
 */
module Bundle {
  import opened Wrappers
  import opened Order
  import opened Counting
  import opened Listing
  import opened Sorting
  import opened Text
  import opened BundleRecords
  import opened BundleClosure
  import opened BundleScrub

  datatype Trust = SourceFact | OtherTrust(label_: string)

  // The row of the citation classifier, as far as the coverage gate reads it.
  datatype Row = Row(trust: Trust, missing: bool)

  datatype Env = Env(
    rules: Rules, json: Record -> string, digest: string -> string, secret: string -> bool,
    trust: Record -> Trust, classify: (Record, seq<Record>) -> Row)

  datatype BundleRecord = BundleRecord(record: Record, hash: string)

  datatype EvidenceBundle = EvidenceBundle(
    counts: map<Trust, nat>, rootIds: seq<Id>, records: seq<BundleRecord>, unresolved: seq<Unresolved>)

  datatype ExportError = InvalidSelector | NoMatch | BelowThreshold | NonCodeUncited

  // ---------------------------------------------------------------- selection

  datatype Prefix = ById | BySymbol | ByFile | ByTask | ByMemory | UnknownPrefix

  function ParsePrefix(p: string): Prefix {
    if p == "id" then ById
    else if p == "symbol" then BySymbol
    else if p == "file" then ByFile
    else if p == "task" then ByTask
    else if p == "memory" then ByMemory
    else UnknownPrefix
  }

  predicate Matches(prefix: Prefix, value: string, r: Record) {
    match prefix
    case ById => r.id.text == value
    case BySymbol => r.Node? && r.kind == Symbol && r.name == Some(value)
    case ByFile => r.Node? && r.kind == File && r.path == Some(value)
    case ByTask => r.Node? && r.kind == Task && (r.entityId == Some(value) || r.id.text == value)
    case ByMemory => r.Node? && r.kind in {Observation, Decision, Failure, Lesson} && r.id.text == value
    case UnknownPrefix => false
  }

  function Selected(records: seq<Record>, prefix: Prefix, value: string): (roots: seq<Record>)
    ensures forall r :: r in roots <==> r in records && Matches(prefix, value, r)
  {
    if records == [] then []
    else
      var front, last := records[..|records| - 1], records[|records| - 1];
      assert records == front + [last];
      var rest := Selected(front, prefix, value);
      if Matches(prefix, value, last) then rest + [last] else rest
  }

  function FindRootRecords(records: seq<Record>, selector: string): Result<seq<Record>, ExportError> {
    var split := SplitOnce(selector, ':');
    if split.None? then Err(InvalidSelector)
    else
      var roots := Selected(records, ParsePrefix(split.value.0), split.value.1);
      if roots == [] then Err(NoMatch) else Ok(roots)
  }

  // ---------------------------------------------------------------- what a bundle must satisfy

  function Records(bs: seq<BundleRecord>): (rs: seq<Record>)
    ensures |rs| == |bs| && forall i :: 0 <= i < |bs| ==> rs[i] == bs[i].record
  {
    seq(|bs|, i requires 0 <= i < |bs| => bs[i].record)
  }

  // The canonical order: by ID, then by the serialised record.
  predicate Le(env: Env, a: BundleRecord, b: BundleRecord) {
    if a.record.id == b.record.id then StrLe(env.json(a.record), env.json(b.record))
    else StrLe(a.record.id.text, b.record.id.text)
  }

  function Canonical(env: Env): (BundleRecord, BundleRecord) -> bool {
    (a, b) => Le(env, a, b)
  }

  lemma CanonicalIsOrder(env: Env)
    ensures Total(Canonical(env)) && Transitive(Canonical(env))
  {
    forall a, b ensures Le(env, a, b) || Le(env, b, a) {
      StrLeTotal(env.json(a.record), env.json(b.record));
      StrLeTotal(a.record.id.text, b.record.id.text);
    }
    forall a, b, c | Le(env, a, b) && Le(env, b, c) ensures Le(env, a, c) {
      LeTransitive(env, a, b, c);
    }
  }

  lemma LeTransitive(env: Env, a: BundleRecord, b: BundleRecord, c: BundleRecord)
    requires Le(env, a, b) && Le(env, b, c)
    ensures Le(env, a, c)
  {
    var x, y, z := a.record.id.text, b.record.id.text, c.record.id.text;
    if x == y == z {
      StrLeTransitive(env.json(a.record), env.json(b.record), env.json(c.record));
    } else if x == z {
      StrLeAntisymmetric(x, y);
    } else if x != y && y != z {
      StrLeTransitive(x, y, z);
    }
  }

  predicate HashOk(env: Env, b: BundleRecord) {
    env.digest(env.json(b.record)) == b.hash
  }

  ghost predicate Integral(env: Env, b: EvidenceBundle) {
    && SumOf(b.counts) == |b.records|
    && (forall i :: 0 <= i < |b.records| ==> HashOk(env, b.records[i]))
    && NeighboursOrdered(Canonical(env), b.records)
  }

  function ValidCount(env: Env, rs: seq<Record>, closure: seq<Record>): nat {
    if rs == [] then 0
    else ValidCount(env, rs[..|rs| - 1], closure) + if env.classify(rs[|rs| - 1], closure).missing then 0 else 1
  }

  predicate NonCodeCited(env: Env, rs: seq<Record>, closure: seq<Record>) {
    forall i :: 0 <= i < |rs| ==>
      env.classify(rs[i], closure).trust == SourceFact || !env.classify(rs[i], closure).missing
  }

  // At least 95% of the records cited, and every one outside the code.
  ghost predicate Cited(env: Env, bs: seq<BundleRecord>) {
    var rs := Records(bs);
    20 * ValidCount(env, rs, rs) >= 19 * |rs| && NonCodeCited(env, rs, rs)
  }

  ghost predicate Covered(env: Env, b: EvidenceBundle) {
    && (forall id :: id in b.rootIds ==> HasId(Records(b.records), id))
    && Cited(env, b.records)
  }

  ghost predicate Safe(env: Env, b: EvidenceBundle) {
    forall i :: 0 <= i < |b.records| ==>
      !env.secret(env.json(b.records[i].record)) && FirstUnscrubbedField(b.records[i].record) == None
  }

  // ---------------------------------------------------------------- the coverage loop, shared by both sides

  method CountCoverage(env: Env, bs: seq<BundleRecord>) returns (valid: nat, nonCode: bool)
    ensures valid == ValidCount(env, Records(bs), Records(bs))
    ensures nonCode <==> NonCodeCited(env, Records(bs), Records(bs))
  {
    var closure := Records(bs);
    valid, nonCode := 0, true;
    for i := 0 to |bs|
      invariant valid == ValidCount(env, closure[..i], closure)
      invariant nonCode <==> NonCodeCited(env, closure[..i], closure)
    {
      assert closure[..i + 1][..i] == closure[..i];
      var row := env.classify(bs[i].record, closure);
      if !row.missing { valid := valid + 1; }
      if row.trust != SourceFact && row.missing { nonCode := false; }
    }
    assert closure[..|bs|] == closure;
  }

  // ---------------------------------------------------------------- export

  function Wrap(env: Env, r: Record): BundleRecord {
    var scrubbed := Scrub(env.rules, r);
    BundleRecord(scrubbed, env.digest(env.json(scrubbed)))
  }

  function WrapAll(env: Env, rs: seq<Record>): (bs: seq<BundleRecord>)
    ensures |bs| == |rs| && forall i :: 0 <= i < |rs| ==> bs[i] == Wrap(env, rs[i])
  {
    seq(|rs|, i requires 0 <= i < |rs| => Wrap(env, rs[i]))
  }

  function TrustCount(env: Env, bs: seq<BundleRecord>, t: Trust): nat {
    if bs == [] then 0
    else TrustCount(env, bs[..|bs| - 1], t) + if env.trust(bs[|bs| - 1].record) == t then 1 else 0
  }

  // The manifest counts the records of each trust class, and lists only classes it met.
  ghost predicate Tallies(env: Env, counts: map<Trust, nat>, bs: seq<BundleRecord>) {
    forall t :: (if t in counts then counts[t] else 0) == TrustCount(env, bs, t) && (t in counts ==> counts[t] > 0)
  }

  method CountByTrust(env: Env, bs: seq<BundleRecord>) returns (counts: map<Trust, nat>)
    ensures Tallies(env, counts, bs) && SumOf(counts) == |bs|
  {
    counts := map[];
    for i := 0 to |bs|
      invariant Tallies(env, counts, bs[..i]) && SumOf(counts) == i
    {
      assert bs[..i + 1][..i] == bs[..i];
      var t := env.trust(bs[i].record);
      SumPuts(counts, t, (if t in counts then counts[t] else 0) + 1);
      counts := counts[t := (if t in counts then counts[t] else 0) + 1];
    }
    assert bs[..|bs|] == bs;
  }

  // What the bundle holds: `included` is the closure the search found, in its order.
  ghost predicate Holds(env: Env, records: seq<Record>, roots: seq<Id>, included: seq<Record>, b: EvidenceBundle) {
    && b.rootIds == roots
    && multiset(b.records) == multiset(WrapAll(env, included))
    && (forall r :: r in included ==> IsLastVersion(records, r))
    && roots <= Ids(included)
    && Enumerates(Ids(included)[|roots|..], ReachableIds(records, Elements(roots)) - Elements(roots))
    && NotesDangling(records, included, b.unresolved)
  }

  // The error the gate reports for records that are not sufficiently cited.
  ghost function GateError(env: Env, bs: seq<BundleRecord>): ExportError {
    if 20 * ValidCount(env, Records(bs), Records(bs)) < 19 * |bs| then BelowThreshold else NonCodeUncited
  }

  method ExportBundle(env: Env, records: seq<Record>, selector: string)
    returns (r: Result<EvidenceBundle, ExportError>, ghost included: seq<Record>)
    ensures FindRootRecords(records, selector).Err? ==> r == Err(FindRootRecords(records, selector).error)
    ensures FindRootRecords(records, selector).Ok? && r.Err? ==>
      var roots := Ids(FindRootRecords(records, selector).value);
      exists b :: Holds(env, records, roots, included, b) && !Cited(env, b.records) && r.error == GateError(env, b.records)
    ensures r.Ok? ==>
      && FindRootRecords(records, selector).Ok?
      && Tallies(env, r.value.counts, r.value.records)
      && Holds(env, records, Ids(FindRootRecords(records, selector).value), included, r.value)
      && Integral(env, r.value) && Covered(env, r.value)
      && forall i :: 0 <= i < |r.value.records| ==> FirstUnscrubbedField(r.value.records[i].record) == None
  {
    included := [];
    var found := FindRootRecords(records, selector);
    if found.Err? { return Err(found.error), included; }
    var roots := Ids(found.value);
    RootsPresent(records, found.value);
    var closure, unresolved := Traverse(records, roots);
    included := closure;
    CanonicalIsOrder(env);
    var sorted := Sort(Canonical(env), WrapAll(env, closure));
    SortedAreWrapped(env, closure, sorted);
    var valid, nonCode := CountCoverage(env, sorted);
    if 20 * valid < 19 * |sorted| {
      assert Holds(env, records, roots, included, EvidenceBundle(map[], roots, sorted, unresolved));
      return Err(BelowThreshold), included;
    }
    if !nonCode {
      assert Holds(env, records, roots, included, EvidenceBundle(map[], roots, sorted, unresolved));
      return Err(NonCodeUncited), included;
    }
    var counts := CountByTrust(env, sorted);
    RootsKept(env, roots, closure, sorted);
    r := Ok(EvidenceBundle(counts, roots, sorted, unresolved));
  }

  lemma RootsPresent(records: seq<Record>, roots: seq<Record>)
    requires forall r :: r in roots ==> r in records
    ensures forall id :: id in Ids(roots) ==> HasId(records, id)
  {
    forall id | id in Ids(roots) ensures HasId(records, id) {
      var i :| 0 <= i < |roots| && roots[i].id == id;
      assert roots[i] in records;
    }
  }

  lemma SortedAreWrapped(env: Env, closure: seq<Record>, sorted: seq<BundleRecord>)
    requires multiset(sorted) == multiset(WrapAll(env, closure))
    ensures forall i :: 0 <= i < |sorted| ==>
      HashOk(env, sorted[i]) && FirstUnscrubbedField(sorted[i].record) == None
  {
    forall i | 0 <= i < |sorted| ensures HashOk(env, sorted[i]) && FirstUnscrubbedField(sorted[i].record) == None {
      assert sorted[i] in multiset(WrapAll(env, closure));
      var j :| 0 <= j < |closure| && sorted[i] == Wrap(env, closure[j]);
      ScrubbedIsClean(env.rules, closure[j]);
    }
  }

  lemma RootsKept(env: Env, roots: seq<Id>, closure: seq<Record>, sorted: seq<BundleRecord>)
    requires roots <= Ids(closure) && multiset(sorted) == multiset(WrapAll(env, closure))
    ensures forall id :: id in roots ==> HasId(Records(sorted), id)
  {
    forall id | id in roots ensures HasId(Records(sorted), id) {
      var k :| 0 <= k < |roots| && roots[k] == id;
      assert Ids(closure)[k] == closure[k].id == id;
      ScrubbedIsClean(env.rules, closure[k]);
      assert WrapAll(env, closure)[k] in multiset(sorted);
      var i :| 0 <= i < |sorted| && sorted[i] == Wrap(env, closure[k]);
      assert Records(sorted)[i].id == id;
    }
  }

  // ---------------------------------------------------------------- verification

  // The sum of the manifest's counts, read off key by key.
  method SumCounts(counts: map<Trust, nat>) returns (sum: nat)
    ensures sum == SumOf(counts)
  {
    sum := 0;
    var rest := counts;
    while rest != map[]
      invariant sum + SumOf(rest) == SumOf(counts)
      decreases |rest|
    {
      var t :| t in rest;
      SumTakesOut(rest, t);
      sum, rest := sum + rest[t], rest - {t};
    }
  }

  method CheckIntegrity(env: Env, b: EvidenceBundle) returns (passed: bool)
    ensures passed <==> Integral(env, b)
  {
    passed := true;
    var sum := SumCounts(b.counts);
    if sum != |b.records| {
      passed := false;
    } else {
      var i := 0;
      while i < |b.records|
        invariant 0 <= i <= |b.records| && passed
        invariant forall j :: 0 <= j < i ==> HashOk(env, b.records[j])
      {
        if !HashOk(env, b.records[i]) { passed := false; break; }
        i := i + 1;
      }
      if passed {
        i := 0;
        while i < |b.records| - 1
          invariant 0 <= i <= |b.records| && passed
          invariant forall j :: 0 <= j < i && j < |b.records| - 1 ==> Canonical(env)(b.records[j], b.records[j + 1])
        {
          if !Le(env, b.records[i], b.records[i + 1]) {
            passed := false;
            assert !Canonical(env)(b.records[i], b.records[i + 1]);
            break;
          }
          i := i + 1;
        }
      }
    }
  }

  method CheckCoverage(env: Env, b: EvidenceBundle) returns (passed: bool)
    ensures passed <==> Covered(env, b)
  {
    passed := true;
    var includedIds := set i | 0 <= i < |b.records| :: b.records[i].record.id;
    assert forall id :: id in includedIds <==> HasId(Records(b.records), id);
    var k := 0;
    while k < |b.rootIds|
      invariant 0 <= k <= |b.rootIds| && passed
      invariant forall j :: 0 <= j < k ==> b.rootIds[j] in includedIds
    {
      if b.rootIds[k] !in includedIds {
        passed := false;
        break;
      }
      k := k + 1;
    }
    if passed {
      var valid, nonCode := CountCoverage(env, b.records);
      if 20 * valid < 19 * |b.records| { passed := false; } else if !nonCode { passed := false; }
    }
  }

  method CheckSafety(env: Env, b: EvidenceBundle) returns (passed: bool)
    ensures passed <==> Safe(env, b)
  {
    passed := true;
    var i := 0;
    while i < |b.records|
      invariant 0 <= i <= |b.records| && passed
      invariant forall j :: 0 <= j < i ==>
        !env.secret(env.json(b.records[j].record)) && FirstUnscrubbedField(b.records[j].record) == None
    {
      if env.secret(env.json(b.records[i].record)) { passed := false; break; }
      if FirstUnscrubbedField(b.records[i].record) != None { passed := false; break; }
      i := i + 1;
    }
  }

  datatype Report = Report(ok: bool, integrity: bool, coverage: bool, safety: bool)

  method VerifyBundle(env: Env, b: EvidenceBundle) returns (report: Report)
    ensures report.integrity <==> Integral(env, b)
    ensures report.coverage <==> Covered(env, b)
    ensures report.safety <==> Safe(env, b)
    ensures report.ok <==> Integral(env, b) && Covered(env, b) && Safe(env, b)
  {
    var integrity := CheckIntegrity(env, b);
    var coverage := CheckCoverage(env, b);
    var safety := CheckSafety(env, b);
    report := Report(integrity && coverage && safety, integrity, coverage, safety);
  }

  // Whatever the exporter emits passes the integrity and the coverage check, and the
  // safety check unless the secret scan objects to the text of a scrubbed record.
  method ExportThenVerify(env: Env, records: seq<Record>, selector: string)
    returns (exported: Result<EvidenceBundle, ExportError>, report: Report)
    ensures exported.Ok? ==>
      && report.integrity && report.coverage
      && (report.ok <==> forall i :: 0 <= i < |exported.value.records| ==> !env.secret(env.json(exported.value.records[i].record)))
  {
    ghost var included;
    exported, included := ExportBundle(env, records, selector);
    report := Report(false, false, false, false);
    if exported.Ok? {
      report := VerifyBundle(env, exported.value);
    }
  }
}
