/**
 Which package owns a file (src/crate_attribution.rs): the nearest enclosing manifest,
 found by walking up the directories of its path.
 */
module CrateAttribution {
  import opened Wrappers
  import opened Order
  import opened Sorting
  import opened Paths

  datatype Outcome = Package(name: string) | UnnamedPackage | Virtual | UnusableManifest | Unparseable | Unreadable

  datatype Fact = Fact(path: string, outcome: Outcome)

  datatype Reason =
    | NoUnnamed | NoUnparseable | NoUnusable | NoUnreadable | VirtualManifestOnly | NoEnclosingManifest

  datatype Attribution = Attributed(name: string, manifest: string) | Unattributed(reason: Reason)

  // ---------------------------------------------------------------- shapes of paths

  // `C:`, as a whole first segment.
  predicate IsDrive(first: string) {
    |first| == 2 && first[1] == ':' && ('a' <= first[0] <= 'z' || 'A' <= first[0] <= 'Z')
  }

  predicate IsRepoRelativePath(path: string) {
    && path != "" && path[0] != '/' && '\0' !in path
    && !IsDrive(Split(path)[0])
    && forall i :: 0 <= i < |Split(path)| ==> Split(path)[i] != "" && Split(path)[i] != "." && Split(path)[i] != ".."
  }

  function Init(segments: seq<string>): seq<string> {
    if segments == [] then [] else segments[..|segments| - 1]
  }

  const MANIFEST_FILE_NAME := "Cargo.toml"

  predicate ManifestPathIsRepoRelative(path: string) {
    IsRepoRelativePath(path) && Split(path)[|Split(path)| - 1] == MANIFEST_FILE_NAME
  }

  function DirectoryKey(f: Fact): Option<string> {
    if ManifestPathIsRepoRelative(f.path) then Some(Join(Init(Split(f.path)))) else None
  }

  // The directory a manifest sits in, segment by segment.
  function FactDir(f: Fact): seq<string> {
    Init(Split(f.path))
  }

  // The directory of a file, segment by segment.
  function DirSegments(path: string): seq<string> {
    Init(NonEmpty(Split(path)))
  }

  lemma DirIsPlain(path: string)
    ensures Plain(DirSegments(path))
  {
    NonEmptyIsPlain(Split(path));
  }

  lemma FactDirIsPlain(f: Fact)
    requires DirectoryKey(f).Some?
    ensures Plain(FactDir(f)) && DirSegments(f.path) == FactDir(f)
  {
    RelativeIsPlain(f.path);
    PlainUnfiltered(Split(f.path));
    InitIsPlain(Split(f.path));
  }

  lemma RelativeIsPlain(path: string)
    requires IsRepoRelativePath(path)
    ensures Plain(Split(path))
  {
  }

  lemma InitIsPlain(segments: seq<string>)
    requires Plain(segments)
    ensures Plain(Init(segments))
  {
  }

  // Only one path of a manifest has a given directory.
  lemma PathOfDirectory(f: Fact, g: Fact)
    requires DirectoryKey(f).Some? && DirectoryKey(f) == DirectoryKey(g)
    ensures f.path == g.path && FactDir(f) == FactDir(g)
  {
    FactDirIsPlain(f);
    FactDirIsPlain(g);
    JoinInjective(FactDir(f), FactDir(g));
    assert Split(f.path) == FactDir(f) + [MANIFEST_FILE_NAME];
    assert Split(g.path) == FactDir(g) + [MANIFEST_FILE_NAME];
    JoinSplit(f.path);
    JoinSplit(g.path);
  }

  // ---------------------------------------------------------------- the index

  function Rank(o: Outcome): nat {
    match o
    case Package(_) => 0
    case UnnamedPackage => 1
    case Virtual => 2
    case UnusableManifest => 3
    case Unparseable => 4
    case Unreadable => 5
  }

  // The derived order of outcomes and of facts.
  predicate OutcomeLe(a: Outcome, b: Outcome) {
    if a.Package? && b.Package? then StrLe(a.name, b.name) else Rank(a) <= Rank(b)
  }

  predicate FactLe(a: Fact, b: Fact) {
    if a.path == b.path then OutcomeLe(a.outcome, b.outcome) else StrLe(a.path, b.path)
  }

  function FactOrder(): (Fact, Fact) -> bool {
    (a, b) => FactLe(a, b)
  }

  lemma OutcomeLeAntisymmetric(a: Outcome, b: Outcome)
    requires OutcomeLe(a, b) && OutcomeLe(b, a)
    ensures a == b
  {
    if a.Package? && b.Package? { StrLeAntisymmetric(a.name, b.name); }
  }

  lemma OutcomeLeTransitive(a: Outcome, b: Outcome, c: Outcome)
    requires OutcomeLe(a, b) && OutcomeLe(b, c)
    ensures OutcomeLe(a, c)
  {
    if a.Package? && b.Package? && c.Package? { StrLeTransitive(a.name, b.name, c.name); }
  }

  lemma FactLeTransitive(a: Fact, b: Fact, c: Fact)
    requires FactLe(a, b) && FactLe(b, c)
    ensures FactLe(a, c)
  {
    if a.path == b.path == c.path {
      OutcomeLeTransitive(a.outcome, b.outcome, c.outcome);
    } else if a.path == c.path {
      StrLeAntisymmetric(a.path, b.path);
    } else if a.path != b.path && b.path != c.path {
      StrLeTransitive(a.path, b.path, c.path);
    }
  }

  lemma FactOrderIsOrder()
    ensures Total(FactOrder()) && Transitive(FactOrder())
  {
    forall a, b ensures FactLe(a, b) || FactLe(b, a) {
      StrLeTotal(a.path, b.path);
      if a.outcome.Package? && b.outcome.Package? { StrLeTotal(a.outcome.name, b.outcome.name); }
    }
    forall a, b, c | FactLe(a, b) && FactLe(b, c) ensures FactLe(a, c) {
      FactLeTransitive(a, b, c);
    }
  }

  datatype Index = Index(byDir: map<string, Outcome>, manifestByDir: map<string, string>)

  // The fact that decides for its directory: the least outcome given for the path.
  ghost predicate Speaks(facts: seq<Fact>, f: Fact) {
    f in facts && DirectoryKey(f).Some? && forall g :: g in facts && g.path == f.path ==> OutcomeLe(f.outcome, g.outcome)
  }

  ghost predicate IsIndexOf(index: Index, facts: seq<Fact>) {
    && index.byDir.Keys == index.manifestByDir.Keys
    && (forall f :: f in facts && DirectoryKey(f).Some? ==> DirectoryKey(f).value in index.byDir)
    && (forall dir :: dir in index.byDir ==> Entry(index, facts, dir))
  }

  // What the index holds for a directory is the fact that decides for it.
  ghost predicate Entry(index: Index, facts: seq<Fact>, dir: string) {
    dir in index.byDir && dir in index.manifestByDir &&
    var f := Fact(index.manifestByDir[dir], index.byDir[dir]);
    DirectoryKey(f) == Some(dir) && Speaks(facts, f)
  }

  function KeyFunction(): Fact -> Option<string> {
    f => DirectoryKey(f)
  }

  // The first fact of a sorted list for each directory.
  ghost predicate HoldsFirst(key: Fact -> Option<string>, index: Index, sorted: seq<Fact>, i: nat)
    requires i <= |sorted|
  {
    && index.byDir.Keys == index.manifestByDir.Keys
    && (forall j :: 0 <= j < i && key(sorted[j]).Some? ==> key(sorted[j]).value in index.byDir)
    && (forall dir :: dir in index.byDir ==> HasFirst(key, index, sorted, i, dir))
  }

  ghost predicate HasFirst(key: Fact -> Option<string>, index: Index, sorted: seq<Fact>, i: nat, dir: string)
    requires i <= |sorted| && dir in index.byDir && dir in index.manifestByDir
  {
    exists j :: 0 <= j < i && IsFirst(key, sorted, j, dir)
      && sorted[j] == Fact(index.manifestByDir[dir], index.byDir[dir])
  }

  ghost predicate IsFirst(key: Fact -> Option<string>, sorted: seq<Fact>, j: nat, dir: string)
    requires j < |sorted|
  {
    key(sorted[j]) == Some(dir) && forall k :: 0 <= k < j ==> key(sorted[k]) != Some(dir)
  }

  // The first fact for a directory wins; one without a directory key is dropped.
  function WithFact(index: Index, f: Fact, key: Option<string>): Index {
    if key.None? || key.value in index.byDir then index
    else Index(index.byDir[key.value := f.outcome], index.manifestByDir[key.value := f.path])
  }

  lemma FirstGrows(key: Fact -> Option<string>, index: Index, sorted: seq<Fact>, i: nat)
    requires i < |sorted| && HoldsFirst(key, index, sorted, i)
    ensures HoldsFirst(key, WithFact(index, sorted[i], key(sorted[i])), sorted, i + 1)
  {
  }

  method FromFacts(facts: seq<Fact>) returns (index: Index)
    ensures IsIndexOf(index, facts)
  {
    FactOrderIsOrder();
    var sorted := Sort(FactOrder(), facts);
    index := Index(map[], map[]);
    for i := 0 to |sorted|
      invariant HoldsFirst(KeyFunction(), index, sorted, i)
    {
      FirstGrows(KeyFunction(), index, sorted, i);
      index := WithFact(index, sorted[i], DirectoryKey(sorted[i]));
    }
    forall f ensures f in facts <==> f in sorted {
      assert f in multiset(facts) <==> f in multiset(sorted);
    }
    FirstSpeaks(index, sorted, facts);
  }

  lemma SortedPair(sorted: seq<Fact>, j: nat, k: nat)
    requires NeighboursOrdered(FactOrder(), sorted) && j <= k < |sorted|
    ensures FactLe(sorted[j], sorted[k])
  {
    FactOrderIsOrder();
    var suffix := sorted[j..];
    assert suffix[k - j] == sorted[k];
    forall i | 0 <= i < |suffix| - 1 ensures FactOrder()(suffix[i], suffix[i + 1]) {
      assert FactOrder()(sorted[j + i], sorted[j + i + 1]);
    }
    FirstIsLeast(FactOrder(), suffix, sorted[k]);
  }

  lemma FirstSpeaks(index: Index, sorted: seq<Fact>, facts: seq<Fact>)
    requires NeighboursOrdered(FactOrder(), sorted) && HoldsFirst(KeyFunction(), index, sorted, |sorted|)
    requires forall f :: f in facts <==> f in sorted
    ensures IsIndexOf(index, facts)
  {
    forall dir | dir in index.byDir ensures Entry(index, facts, dir) {
      var j :| 0 <= j < |sorted| && IsFirst(KeyFunction(), sorted, j, dir)
        && sorted[j] == Fact(index.manifestByDir[dir], index.byDir[dir]);
      forall g | g in facts && g.path == sorted[j].path ensures OutcomeLe(sorted[j].outcome, g.outcome) {
        FirstIsBest(sorted, j, dir, g);
      }
    }
  }

  lemma FirstIsBest(sorted: seq<Fact>, j: nat, dir: string, g: Fact)
    requires NeighboursOrdered(FactOrder(), sorted) && j < |sorted| && IsFirst(KeyFunction(), sorted, j, dir)
    requires g in sorted && g.path == sorted[j].path
    ensures OutcomeLe(sorted[j].outcome, g.outcome)
  {
    var k :| 0 <= k < |sorted| && sorted[k] == g;
    assert DirectoryKey(g) == Some(dir);
    SortedPair(sorted, j, k);
  }

  // The index depends on the set of facts, not on their order or number.
  lemma IndexIsDetermined(facts1: seq<Fact>, facts2: seq<Fact>, i1: Index, i2: Index)
    requires forall f :: f in facts1 <==> f in facts2
    requires IsIndexOf(i1, facts1) && IsIndexOf(i2, facts2)
    ensures i1 == i2
  {
    SameDirs(facts1, facts2, i1, i2);
    SameDirs(facts2, facts1, i2, i1);
    forall dir | dir in i1.byDir ensures i1.byDir[dir] == i2.byDir[dir] && i1.manifestByDir[dir] == i2.manifestByDir[dir] {
      assert Entry(i1, facts1, dir) && Entry(i2, facts2, dir);
      EntriesAgree(facts1, facts2, Fact(i1.manifestByDir[dir], i1.byDir[dir]), Fact(i2.manifestByDir[dir], i2.byDir[dir]));
    }
    SameMaps(i1.byDir, i2.byDir);
    SameMaps(i1.manifestByDir, i2.manifestByDir);
  }

  lemma SameMaps<K, V>(a: map<K, V>, b: map<K, V>)
    requires a.Keys == b.Keys && forall k :: k in a ==> a[k] == b[k]
    ensures a == b
  {
  }

  lemma SameDirs(facts1: seq<Fact>, facts2: seq<Fact>, i1: Index, i2: Index)
    requires forall f :: f in facts1 <==> f in facts2
    requires IsIndexOf(i1, facts1) && IsIndexOf(i2, facts2)
    ensures i1.byDir.Keys <= i2.byDir.Keys
  {
  }

  lemma EntriesAgree(facts1: seq<Fact>, facts2: seq<Fact>, f: Fact, g: Fact)
    requires forall f :: f in facts1 <==> f in facts2
    requires Speaks(facts1, f) && Speaks(facts2, g) && DirectoryKey(f) == DirectoryKey(g)
    ensures f == g
  {
    PathOfDirectory(f, g);
    OutcomeLeAntisymmetric(f.outcome, g.outcome);
  }

  // ---------------------------------------------------------------- the walk

  // The ancestor directories, nearest first, down to the repository root.
  ghost predicate ListsAncestors(dirs: seq<string>, d: seq<string>) {
    |dirs| == |d| + 1 && forall k :: 0 <= k <= |d| ==> dirs[k] == Join(d[..|d| - k])
  }

  method AncestorDirs(path: string) returns (dirs: seq<string>)
    ensures ListsAncestors(dirs, DirSegments(path))
  {
    var d := DirSegments(path);
    var segments := d;
    dirs := [];
    while segments != []
      invariant |dirs| + |segments| == |d| && segments == d[..|segments|]
      invariant forall k :: 0 <= k < |dirs| ==> dirs[k] == Join(d[..|d| - k])
    {
      dirs := dirs + [Join(segments)];
      segments := segments[..|segments| - 1];
    }
    assert d[..0] == [];
    dirs := dirs + [""];
  }

  function ReasonFor(o: Outcome): Reason
    requires !o.Package? && !o.Virtual?
  {
    match o
    case UnnamedPackage => NoUnnamed
    case Unparseable => NoUnparseable
    case UnusableManifest => NoUnusable
    case Unreadable => NoUnreadable
  }

  function Answer(index: Index, dir: string): Attribution
    requires dir in index.byDir && !index.byDir[dir].Virtual?
  {
    var o := index.byDir[dir];
    if o.Package? then Attributed(o.name, if dir in index.manifestByDir then index.manifestByDir[dir] else "")
    else Unattributed(ReasonFor(o))
  }

  // The manifest of the directory `d[..n]` ends the walk.
  predicate Stops(index: Index, d: seq<string>, n: nat)
    requires n <= |d|
  {
    Join(d[..n]) in index.byDir && !index.byDir[Join(d[..n])].Virtual?
  }

  predicate PassesVirtual(index: Index, d: seq<string>, n: nat)
    requires n <= |d|
  {
    Join(d[..n]) in index.byDir && index.byDir[Join(d[..n])].Virtual?
  }

  // The deepest manifest that is not virtual answers; without one, the reason tells
  // whether a virtual one was passed.
  ghost predicate IsAnswer(index: Index, d: seq<string>, r: Attribution) {
    && (forall n :: 0 <= n <= |d| && Stops(index, d, n) && (forall m :: n < m <= |d| ==> !Stops(index, d, m)) ==>
          r == Answer(index, Join(d[..n])))
    && ((forall n :: 0 <= n <= |d| ==> !Stops(index, d, n)) ==>
          r == Unattributed(if exists n :: 0 <= n <= |d| && PassesVirtual(index, d, n)
                            then VirtualManifestOnly else NoEnclosingManifest))
  }

  method AttributionFor(index: Index, path: string) returns (r: Attribution)
    ensures IsAnswer(index, DirSegments(path), r)
  {
    ghost var d := DirSegments(path);
    var dirs := AncestorDirs(path);
    var sawVirtual := false;
    var k := 0;
    while k < |dirs|
      invariant 0 <= k <= |dirs|
      invariant forall n :: |d| - k < n <= |d| ==> !Stops(index, d, n)
      invariant sawVirtual <==> exists n :: |d| - k < n <= |d| && PassesVirtual(index, d, n)
    {
      var dir := dirs[k];
      assert dir == Join(d[..|d| - k]);
      if dir in index.byDir {
        if index.byDir[dir].Virtual? {
          sawVirtual := true;
          assert PassesVirtual(index, d, |d| - k);
        } else {
          assert Stops(index, d, |d| - k);
          return Answer(index, dir);
        }
      }
      k := k + 1;
    }
    r := Unattributed(if sawVirtual then VirtualManifestOnly else NoEnclosingManifest);
  }

  // ---------------------------------------------------------------- enclosure

  function AncestorsFrom(d: seq<string>, n: nat): (dirs: seq<string>)
    requires n <= |d|
    ensures forall x :: x in dirs <==> exists k :: 0 <= k <= n && x == Join(d[..k])
  {
    if n == 0 then [Join(d[..0])] else [Join(d[..n])] + AncestorsFrom(d, n - 1)
  }

  predicate ManifestEncloses(manifest: string, record: string) {
    && IsRepoRelativePath(record)
    && Join(Init(NonEmpty(Split(manifest)))) in AncestorsFrom(DirSegments(record), |DirSegments(record)|)
  }
}
