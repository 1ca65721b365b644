/**
 What an attribution means (src/crate_attribution.rs): the deepest directory of a
 manifest that declares something, compared segment by segment.
 */
module CrateFacts {
  import opened Wrappers
  import opened Paths
  import opened CrateAttribution

  // A manifest that decides for its directory, declares something, and encloses `d`.
  ghost predicate Claims(facts: seq<Fact>, d: seq<string>, f: Fact) {
    Speaks(facts, f) && !f.outcome.Virtual? && FactDir(f) <= d
  }

  // The claim with the longest directory.
  ghost predicate Nearest(facts: seq<Fact>, d: seq<string>, f: Fact) {
    Claims(facts, d, f) && forall g :: Claims(facts, d, g) ==> |FactDir(g)| <= |FactDir(f)|
  }

  function AnswerOf(f: Fact): Attribution
    requires !f.outcome.Virtual?
  {
    if f.outcome.Package? then Attributed(f.outcome.name, f.path) else Unattributed(ReasonFor(f.outcome))
  }

  // A directory stops the walk exactly when the manifest that sits in it claims it.
  lemma StopIsClaim(facts: seq<Fact>, index: Index, d: seq<string>, n: nat) returns (f: Fact)
    requires IsIndexOf(index, facts) && Plain(d) && n <= |d| && Stops(index, d, n)
    ensures Claims(facts, d, f) && FactDir(f) == d[..n]
  {
    f := EntryAt(facts, index, d[..n]);
  }

  lemma ClaimStops(facts: seq<Fact>, index: Index, d: seq<string>, n: nat, f: Fact)
    requires IsIndexOf(index, facts) && Plain(d) && n <= |d|
    requires Claims(facts, d, f) && FactDir(f) == d[..n]
    ensures Stops(index, d, n) && Answer(index, Join(d[..n])) == AnswerOf(f)
  {
    assert DirectoryKey(f) == Some(Join(d[..n]));
    var g := EntryAt(facts, index, d[..n]);
    EntriesAgree(facts, facts, f, g);
  }

  lemma EntryAt(facts: seq<Fact>, index: Index, dir: seq<string>) returns (f: Fact)
    requires IsIndexOf(index, facts) && Plain(dir) && Join(dir) in index.byDir
    ensures f == Fact(index.manifestByDir[Join(dir)], index.byDir[Join(dir)])
    ensures Speaks(facts, f) && DirectoryKey(f) == Some(Join(dir)) && FactDir(f) == dir
  {
    assert Entry(index, facts, Join(dir));
    f := Fact(index.manifestByDir[Join(dir)], index.byDir[Join(dir)]);
    FactDirIsPlain(f);
    JoinInjective(FactDir(f), dir);
  }

  // The walk answers with the nearest claim.
  lemma AnswersNearest(facts: seq<Fact>, index: Index, path: string, r: Attribution, f: Fact)
    requires IsIndexOf(index, facts) && IsAnswer(index, DirSegments(path), r)
    requires Nearest(facts, DirSegments(path), f)
    ensures r == AnswerOf(f)
  {
    var d := DirSegments(path);
    DirIsPlain(path);
    var n := |FactDir(f)|;
    assert FactDir(f) == d[..n];
    ClaimStops(facts, index, d, n, f);
    forall m | n < m <= |d| ensures !Stops(index, d, m) {
      NoStopBelow(facts, index, d, f, m);
    }
  }

  lemma NoStopBelow(facts: seq<Fact>, index: Index, d: seq<string>, f: Fact, m: nat)
    requires IsIndexOf(index, facts) && Plain(d) && Nearest(facts, d, f) && |FactDir(f)| < m <= |d|
    ensures !Stops(index, d, m)
  {
    if Stops(index, d, m) {
      var g := StopIsClaim(facts, index, d, m);
    }
  }

  lemma NearestExists(facts: seq<Fact>, d: seq<string>, f: Fact) returns (g: Fact)
    requires Claims(facts, d, f)
    ensures Nearest(facts, d, g)
    decreases |d| - |FactDir(f)|
  {
    if Nearest(facts, d, f) {
      g := f;
    } else {
      var h :| Claims(facts, d, h) && |FactDir(h)| > |FactDir(f)|;
      g := NearestExists(facts, d, h);
    }
  }

  // A file belongs to a package exactly when the nearest claim is a manifest that names it.
  lemma AttributedExactly(facts: seq<Fact>, index: Index, path: string, r: Attribution, name: string, manifest: string)
    requires IsIndexOf(index, facts) && IsAnswer(index, DirSegments(path), r)
    ensures r == Attributed(name, manifest) <==> Nearest(facts, DirSegments(path), Fact(manifest, Package(name)))
  {
    var d := DirSegments(path);
    if Nearest(facts, d, Fact(manifest, Package(name))) {
      AnswersNearest(facts, index, path, r, Fact(manifest, Package(name)));
    }
    if r == Attributed(name, manifest) {
      if f :| Claims(facts, d, f) {
        var g := NearestExists(facts, d, f);
        AnswersNearest(facts, index, path, r, g);
        AnswerNames(g, name, manifest);
      } else {
        NothingStops(facts, index, path);
      }
    }
  }

  lemma AnswerNames(f: Fact, name: string, manifest: string)
    requires !f.outcome.Virtual? && AnswerOf(f) == Attributed(name, manifest)
    ensures f == Fact(manifest, Package(name))
  {
  }

  lemma NothingStops(facts: seq<Fact>, index: Index, path: string)
    requires IsIndexOf(index, facts) && forall f :: !Claims(facts, DirSegments(path), f)
    ensures forall n :: 0 <= n <= |DirSegments(path)| ==> !Stops(index, DirSegments(path), n)
  {
    var d := DirSegments(path);
    DirIsPlain(path);
    forall n | 0 <= n <= |d| ensures !Stops(index, d, n) {
      if Stops(index, d, n) {
        var f := StopIsClaim(facts, index, d, n);
      }
    }
  }

  // The manifest an attribution cites encloses the file it is about.
  lemma AttributedIsEnclosed(facts: seq<Fact>, index: Index, path: string, r: Attribution)
    requires IsIndexOf(index, facts) && IsAnswer(index, DirSegments(path), r)
    requires IsRepoRelativePath(path) && r.Attributed?
    ensures ManifestPathIsRepoRelative(r.manifest) && ManifestEncloses(r.manifest, path)
  {
    AttributedExactly(facts, index, path, r, r.name, r.manifest);
    assert DirectoryKey(Fact(r.manifest, Package(r.name))).Some?;
    RecordDir(path);
    EnclosesExactly(r.manifest, path);
  }

  lemma RecordDir(record: string)
    requires IsRepoRelativePath(record)
    ensures DirSegments(record) == Init(Split(record)) && Plain(DirSegments(record))
  {
    RelativeIsPlain(record);
    PlainUnfiltered(Split(record));
    InitIsPlain(Split(record));
  }

  // Enclosure goes by whole segments.
  lemma EnclosesExactly(manifest: string, record: string)
    requires ManifestPathIsRepoRelative(manifest) && IsRepoRelativePath(record)
    ensures ManifestEncloses(manifest, record) <==> Init(Split(manifest)) <= Init(Split(record))
  {
    FactDirIsPlain(Fact(manifest, Virtual));
    RecordDir(record);
    PrefixExactly(Init(Split(manifest)), DirSegments(record));
  }

  lemma PrefixExactly(m: seq<string>, d: seq<string>)
    requires Plain(m) && Plain(d)
    ensures Join(m) in AncestorsFrom(d, |d|) <==> m <= d
  {
    if Join(m) in AncestorsFrom(d, |d|) {
      var k :| 0 <= k <= |d| && Join(m) == Join(d[..k]);
      PrefixIsPlain(d, k);
      JoinInjective(m, d[..k]);
    }
    if m <= d {
      assert m == d[..|m|];
    }
  }

  lemma PrefixIsPlain(d: seq<string>, k: nat)
    requires Plain(d) && k <= |d|
    ensures Plain(d[..k])
  {
  }
}
