/**
 Finding the indexed file a coverage path means (src/coverage_capture.rs:999-1031): the
 path itself, or the longest indexed path that ends it after a slash.
 */
module FileResolver {
  import opened Wrappers

  // `p` ends `display`, right after a slash.
  predicate IsSuffixPath(display: string, p: string) {
    |display| > |p| && display[|display| - |p|..] == p && display[|display| - |p| - 1] == '/'
  }

  ghost predicate IsLongest(index: map<string, string>, display: string, p: string) {
    && p in index && IsSuffixPath(display, p)
    && forall q :: q in index && IsSuffixPath(display, q) ==> |q| <= |p|
  }

  // Two suffixes of one path that are equally long are the same path.
  lemma SuffixesOfALength(display: string, p: string, q: string)
    requires IsSuffixPath(display, p) && IsSuffixPath(display, q) && |p| == |q|
    ensures p == q
  {
  }

  // The best candidate among the paths already visited.
  ghost predicate IsBest(visited: map<string, string>, display: string, best: Option<(string, nat)>) {
    if best.None? then forall q :: q in visited ==> !IsSuffixPath(display, q)
    else exists p :: IsLongest(visited, display, p) && best.value == (visited[p], |p|)
  }

  // The entries are visited in an arbitrary order; `tied` is the source's tie flag.
  method ResolveFile(index: map<string, string>, display: string) returns (r: Option<string>, tied: bool)
    ensures !tied
    ensures display in index ==> r == Some(index[display])
    ensures display !in index ==> forall p :: IsLongest(index, display, p) ==> r == Some(index[p])
    ensures display !in index && (forall p :: p in index ==> !IsSuffixPath(display, p)) ==> r == None
  {
    if display in index { return Some(index[display]), false; }
    var best;
    best, tied := FindBest(index, display);
    BestIsLongest(index, display, best);
    r := if tied then None else if best.None? then None else Some(best.value.0);
  }

  // What is left of the index, and what has been visited.
  ghost predicate Parts(index: map<string, string>, rest: map<string, string>, visited: map<string, string>) {
    && rest.Keys <= index.Keys && visited.Keys == index.Keys - rest.Keys
    && (forall k :: k in rest ==> rest[k] == index[k])
    && (forall k :: k in visited ==> visited[k] == index[k])
  }

  method FindBest(index: map<string, string>, display: string) returns (best: Option<(string, nat)>, tied: bool)
    ensures IsBest(index, display, best) && !tied
  {
    best, tied := None, false;
    var rest := index;
    ghost var visited: map<string, string> := map[];
    while rest != map[]
      invariant Parts(index, rest, visited) && IsBest(visited, display, best) && !tied
      decreases |rest|
    {
      var p :| p in rest;
      best, tied := Visit(visited, display, best, p, rest[p]);
      VisitOne(index, rest, visited, p);
      visited, rest := visited[p := rest[p]], rest - {p};
    }
    AllVisited(index, visited);
  }

  lemma AllVisited(index: map<string, string>, visited: map<string, string>)
    requires Parts(index, map[], visited)
    ensures visited == index
  {
    assert visited.Keys == index.Keys;
  }

  // One entry: the candidate after it.
  method Visit(ghost visited: map<string, string>, display: string, best0: Option<(string, nat)>, p: string, id: string)
    returns (best: Option<(string, nat)>, tied: bool)
    requires IsBest(visited, display, best0) && p !in visited
    ensures IsBest(visited[p := id], display, best) && !tied
  {
    best, tied := best0, false;
    if IsSuffixPath(display, p) {
      NextBest(visited, display, best, p, id);
      if best.None? || |p| > best.value.1 {
        best, tied := Some((id, |p|)), false;
      } else if |p| == best.value.1 {
        tied := true;
      }
    } else {
      SkipPath(visited, display, best, p, id);
    }
  }

  lemma BestIsLongest(index: map<string, string>, display: string, best: Option<(string, nat)>)
    requires IsBest(index, display, best)
    ensures forall p :: IsLongest(index, display, p) ==> best.Some? && best.value.0 == index[p]
    ensures (forall p :: p in index ==> !IsSuffixPath(display, p)) ==> best.None?
  {
    LongestUnique(index, display);
  }

  lemma VisitOne(index: map<string, string>, rest: map<string, string>, visited: map<string, string>, p: string)
    requires Parts(index, rest, visited) && p in rest
    ensures Parts(index, rest - {p}, visited[p := rest[p]]) && |rest - {p}| < |rest|
  {
    assert rest == (rest - {p})[p := rest[p]];
  }

  lemma NextBest(visited: map<string, string>, display: string, best: Option<(string, nat)>, p: string, id: string)
    requires IsBest(visited, display, best) && p !in visited && IsSuffixPath(display, p)
    ensures best.Some? ==> best.value.1 != |p|
    ensures IsBest(visited[p := id], display, if best.None? || |p| > best.value.1 then Some((id, |p|)) else best)
  {
  }

  lemma SkipPath(visited: map<string, string>, display: string, best: Option<(string, nat)>, p: string, id: string)
    requires IsBest(visited, display, best) && p !in visited && !IsSuffixPath(display, p)
    ensures IsBest(visited[p := id], display, best)
  {
  }

  lemma LongestUnique(index: map<string, string>, display: string)
    ensures forall p, q :: IsLongest(index, display, p) && IsLongest(index, display, q) ==> p == q
  {
  }

  // If any indexed path is a suffix there is a longest one, so a path stays unresolved
  // only when none is.
  lemma LongestExists(index: map<string, string>, display: string, p: string)
    requires p in index && IsSuffixPath(display, p)
    ensures exists q :: IsLongest(index, display, q)
    decreases |display| - |p|
  {
    if !IsLongest(index, display, p) {
      var q :| q in index && IsSuffixPath(display, q) && |q| > |p|;
      LongestExists(index, display, q);
    }
  }
}
