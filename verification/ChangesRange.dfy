/**
 The commit range the citation audit runs `eg query changes` on
 (src/citation_audit.rs:1875-1942): a tip of the indexed commits and one of its
 ancestors, from the parent links alone.
 */
module ChangesRange {
  import opened Wrappers
  import opened Order
  import opened CommitGraph

  // A graph record as far as it is read here; the parents are absent without temporal data.
  datatype Record = Commit(name: Option<string>, parents: Option<seq<string>>) | Other

  ghost predicate Names(r: Record, sha: string) {
    r.Commit? && r.name == Some(sha)
  }

  // `g` holds every named commit, with the parents its last record gives.
  ghost predicate IsGraphOf(g: Graph<string>, records: seq<Record>) {
    && g.parentsOf.Keys == g.nodes
    && (forall sha :: sha in g.nodes <==> exists i :: 0 <= i < |records| && Names(records[i], sha))
    && (forall sha :: sha in g.nodes ==> GivesParents(records, sha, g.parentsOf[sha]))
  }

  ghost predicate IsLast(records: seq<Record>, i: nat, sha: string)
    requires i < |records|
  {
    Names(records[i], sha) && forall j :: i < j < |records| ==> !Names(records[j], sha)
  }

  ghost predicate GivesParents(records: seq<Record>, sha: string, parents: seq<string>) {
    exists i :: 0 <= i < |records| && IsLast(records, i, sha) && parents == records[i].parents.UnwrapOr([])
  }

  // The graph of the records: a later record of a commit replaces its parents.
  function GraphOf(records: seq<Record>): Graph<string> {
    if records == [] then Graph({}, map[])
    else WithCommit(GraphOf(records[..|records| - 1]), records[|records| - 1])
  }

  function WithCommit(g: Graph<string>, r: Record): Graph<string> {
    match r
    case Commit(Some(sha), parents) => Graph(g.nodes + {sha}, g.parentsOf[sha := parents.UnwrapOr([])])
    case _ => g
  }

  lemma {:induction false} GraphOfRecords(records: seq<Record>)
    ensures IsGraphOf(GraphOf(records), records)
  {
    if records != [] {
      var front, last := records[..|records| - 1], records[|records| - 1];
      GraphOfRecords(front);
      assert records == front + [last];
      if last.Commit? && last.name.Some? {
        AddsCommit(GraphOf(front), GraphOf(records), front, last, last.name.value);
      } else {
        SkipsRecord(GraphOf(front), front, last);
      }
    }
  }

  method BuildGraph(records: seq<Record>) returns (g: Graph<string>)
    ensures g == GraphOf(records) && IsGraphOf(g, records)
  {
    g := Graph({}, map[]);
    for i := 0 to |records|
      invariant g == GraphOf(records[..i])
    {
      assert records[..i + 1][..i] == records[..i];
      match records[i] {
        case Commit(Some(sha), parents) =>
          g := Graph(g.nodes + {sha}, g.parentsOf[sha := parents.UnwrapOr([])]);
        case _ =>
      }
    }
    assert records[..|records|] == records;
    GraphOfRecords(records);
  }

  lemma AddsCommit(before: Graph<string>, g: Graph<string>, records: seq<Record>, r: Record, sha: string)
    requires IsGraphOf(before, records) && Names(r, sha)
    requires g == Graph(before.nodes + {sha}, before.parentsOf[sha := r.parents.UnwrapOr([])])
    ensures IsGraphOf(g, records + [r])
  {
    var more := records + [r];
    assert Names(more[|records|], sha);
    forall s ensures s in g.nodes <==> exists i :: 0 <= i < |more| && Names(more[i], s) {
      if s in before.nodes {
        var i :| 0 <= i < |records| && Names(records[i], s);
        assert Names(more[i], s);
      }
    }
    forall s | s in g.nodes ensures GivesParents(more, s, g.parentsOf[s]) {
      if s == sha {
        assert IsLast(more, |records|, s);
      } else {
        ParentsStay(records, r, s, before.parentsOf[s]);
      }
    }
  }

  lemma ParentsStay(records: seq<Record>, r: Record, s: string, parents: seq<string>)
    requires GivesParents(records, s, parents) && !Names(r, s)
    ensures GivesParents(records + [r], s, parents)
  {
    var i :| 0 <= i < |records| && IsLast(records, i, s) && parents == records[i].parents.UnwrapOr([]);
    assert IsLast(records + [r], i, s);
  }

  lemma SkipsRecord(g: Graph<string>, records: seq<Record>, r: Record)
    requires IsGraphOf(g, records) && forall sha :: !Names(r, sha)
    ensures IsGraphOf(g, records + [r])
  {
    var more := records + [r];
    forall s ensures s in g.nodes <==> exists i :: 0 <= i < |more| && Names(more[i], s) {
      if s in g.nodes {
        var i :| 0 <= i < |records| && Names(records[i], s);
        assert Names(more[i], s);
      }
    }
    forall s | s in g.nodes ensures GivesParents(more, s, g.parentsOf[s]) {
      ParentsStay(records, r, s, g.parentsOf[s]);
    }
  }

  // The commits of the set that are the parent of some commit.
  method CollectParents(g: Graph<string>) returns (isParent: set<string>)
    requires g.parentsOf.Keys == g.nodes
    ensures forall sha :: sha in g.nodes ==> (sha !in isParent <==> IsTip(g, sha))
  {
    isParent := {};
    var rest := g.parentsOf.Keys;
    while rest != {}
      invariant rest <= g.parentsOf.Keys
      invariant forall sha :: sha in isParent <==>
        sha in g.nodes && exists w :: w in g.parentsOf && w !in rest && sha in g.parentsOf[w]
      decreases |rest|
    {
      var w :| w in rest;
      isParent := isParent + set p | p in g.parentsOf[w] && p in g.nodes;
      rest := rest - {w};
    }
  }

  // The roots among `ancestors`: no parent of theirs is in the set.
  ghost function RootsIn(g: Graph<string>, ancestors: set<string>): (s: set<string>)
    ensures forall v :: v in s <==> v in ancestors && !HasParent(g, v)
  {
    set v | v in ancestors && !HasParent(g, v)
  }

  predicate NoParentIn(g: Graph<string>, v: string) {
    v in g.parentsOf ==> forall p :: p in g.parentsOf[v] ==> p !in g.nodes
  }

  // The least root among the ancestors, or the least ancestor if none is a root.
  ghost predicate IsBase(g: Graph<string>, head: string, base: string) {
    var ancestors := Ancestors(g, head);
    if RootsIn(g, ancestors) != {} then IsLeast(base, RootsIn(g, ancestors)) else IsLeast(base, ancestors)
  }

  method FindBase(g: Graph<string>, head: string, ancestors: set<string>) returns (base: Option<string>)
    requires ancestors == Ancestors(g, head)
    ensures base.None? <==> !HasParent(g, head)
    ensures base.Some? ==> IsBase(g, head, base.value)
  {
    var listed := Ascending(ancestors);
    AnyAncestor(g, head, ancestors);
    var i := 0;
    while i < |listed| && !NoParentIn(g, listed[i])
      invariant 0 <= i <= |listed|
      invariant forall j :: 0 <= j < i ==> HasParent(g, listed[j])
    {
      var p :| p in g.parentsOf[listed[i]] && p in g.nodes;
      assert Parent(g, listed[i], p);
      i := i + 1;
    }
    if i < |listed| {
      assert !HasParent(g, listed[i]);
      FirstIsLeast(listed, i, ancestors, RootsIn(g, ancestors));
      base := Some(listed[i]);
    } else if listed != [] {
      assert RootsIn(g, ancestors) == {};
      FirstIsLeast(listed, 0, ancestors, ancestors);
      base := Some(listed[0]);
    } else {
      base := None;
    }
  }

  lemma AnyAncestor(g: Graph<string>, head: string, ancestors: set<string>)
    requires ancestors == Ancestors(g, head)
    ensures ancestors != {} <==> HasParent(g, head)
  {
    if ancestors != {} {
      var v :| v in ancestors;
      AncestorsAreNodes(g, head, v);
    }
    if HasParent(g, head) {
      var v :| Parent(g, head, v);
      ParentIsAncestor(g, head, v);
    }
  }

  lemma FirstIsLeast(listed: seq<string>, i: nat, all: set<string>, part: set<string>)
    requires Lists(listed, all) && part <= all && i < |listed| && listed[i] in part
    requires forall j :: 0 <= j < i ==> listed[j] !in part
    ensures IsLeast(listed[i], part)
  {
    forall x | x in part ensures StrLe(listed[i], x) {
      var j :| 0 <= j < |listed| && listed[j] == x;
      if j == i { StrLeTotal(x, x); }
    }
  }

  // A tip that has a parent in the set.
  ghost predicate IsCandidate(g: Graph<string>, t: string) {
    IsTip(g, t) && HasParent(g, t)
  }

  lemma LastIsGreatest(g: Graph<string>, listed: seq<string>, i: nat)
    requires Lists(listed, g.nodes) && i < |listed|
    requires forall j :: i < j < |listed| ==> !IsCandidate(g, listed[j])
    ensures forall t :: IsCandidate(g, t) ==> StrLe(t, listed[i])
  {
    forall t | IsCandidate(g, t) ensures StrLe(t, listed[i]) {
      var j :| 0 <= j < |listed| && listed[j] == t;
      if j == i { StrLeTotal(t, t); }
    }
  }

  lemma NoCandidate(g: Graph<string>, listed: seq<string>)
    requires Lists(listed, g.nodes)
    requires forall j :: 0 <= j < |listed| ==> !IsCandidate(g, listed[j])
    ensures !exists t :: IsCandidate(g, t)
  {
  }

  // The greatest tip with a parent in the set, and its base.
  ghost predicate IsRange(g: Graph<string>, base: string, head: string) {
    && IsCandidate(g, head)
    && (forall t :: IsCandidate(g, t) ==> StrLe(t, head))
    && IsBase(g, head, base)
  }

  method ChangesRange(records: seq<Record>) returns (range: Option<(string, string)>)
    ensures range.Some? <==> exists t :: IsCandidate(GraphOf(records), t)
    ensures range.Some? ==> IsRange(GraphOf(records), range.value.0, range.value.1)
  {
    var g := BuildGraph(records);
    range := RangeOf(g);
  }

  method RangeOf(g: Graph<string>) returns (range: Option<(string, string)>)
    requires g.parentsOf.Keys == g.nodes
    ensures range.Some? <==> exists t :: IsCandidate(g, t)
    ensures range.Some? ==> IsRange(g, range.value.0, range.value.1)
  {
    var isParent := CollectParents(g);
    var listed := Ascending(g.nodes);
    var base, i := LastCandidate(g, isParent, listed);
    if base.Some? {
      LastIsGreatest(g, listed, i);
      range := Some((base.value, listed[i]));
    } else {
      NoCandidate(g, listed);
      range := None;
    }
  }

  // The loop over the commits, from the last one down.
  method LastCandidate(g: Graph<string>, isParent: set<string>, listed: seq<string>)
    returns (base: Option<string>, i: nat)
    requires forall k :: 0 <= k < |listed| ==> listed[k] in g.nodes
    requires forall sha :: sha in g.nodes ==> (sha !in isParent <==> IsTip(g, sha))
    ensures base.Some? ==> i < |listed| && IsCandidate(g, listed[i]) && IsBase(g, listed[i], base.value)
    ensures base.Some? ==> forall j :: i < j < |listed| ==> !IsCandidate(g, listed[j])
    ensures base.None? ==> forall j :: 0 <= j < |listed| ==> !IsCandidate(g, listed[j])
  {
    base, i := None, |listed|;
    while i > 0
      invariant 0 <= i <= |listed| && base.None?
      invariant forall j :: i <= j < |listed| ==> !IsCandidate(g, listed[j])
    {
      i := i - 1;
      base := TryHead(g, isParent, listed[i]);
      if base.Some? { return; }
    }
  }

  // One round: a commit that is no tip, or has no ancestor in the set, is passed over.
  method TryHead(g: Graph<string>, isParent: set<string>, head: string) returns (base: Option<string>)
    requires head in g.nodes && (head !in isParent <==> IsTip(g, head))
    ensures base.Some? <==> IsCandidate(g, head)
    ensures base.Some? ==> IsBase(g, head, base.value)
  {
    if head in isParent { return None; }
    var ancestors := AncestorsOf(g, head);
    assert ancestors == Ancestors(g, head);
    base := FindBase(g, head, ancestors);
  }

  // Without cycles a range is found exactly when some commit has a parent in the set.
  lemma AcyclicFindsRange(g: Graph<string>)
    requires Acyclic(g) && g.parentsOf.Keys == g.nodes
    ensures (exists t :: IsCandidate(g, t)) <==> (exists u :: HasParent(g, u))
  {
    if u :| HasParent(g, u) {
      var t := TipAbove(g, u);
      assert IsCandidate(g, t);
    }
  }

  // Without cycles the base is a root, and a strict ancestor of the head, which no
  // commit has as a parent.
  lemma AcyclicRange(g: Graph<string>, base: string, head: string)
    requires Acyclic(g) && IsRange(g, base, head)
    ensures Ancestor(g, head, base) && base != head
    ensures !HasParent(g, base)
    ensures !exists w :: w in g.parentsOf && head in g.parentsOf[w]
  {
    var r := RootBelow(g, head);
    assert r in RootsIn(g, Ancestors(g, head));
  }

  // Even with cycles the base is a strict ancestor of the head.
  lemma RangeIsConnected(g: Graph<string>, base: string, head: string)
    requires IsRange(g, base, head)
    ensures Ancestor(g, head, base) && base != head
  {
    var ancestors := Ancestors(g, head);
    AnyAncestor(g, head, ancestors);
    assert base in ancestors;
    TipIsNoAncestor(g, head, base);
  }

  lemma TipIsNoAncestor(g: Graph<string>, u: string, v: string)
    requires Ancestor(g, u, v)
    ensures !IsTip(g, v)
  {
    var p :| IsChain(g, p, u, v);
    assert Parent(g, p[|p| - 2], p[|p| - 1]);
  }

  // Two commits that are each other's parent leave no tip, so no range is found.
  lemma CycleFindsNothing()
    ensures var g := Graph({"a", "b"}, map["a" := ["b"], "b" := ["a"]]);
            HasParent(g, "a") && HasParent(g, "b") && !exists t :: IsTip(g, t)
  {
    var g := Graph({"a", "b"}, map["a" := ["b"], "b" := ["a"]]);
    assert Parent(g, "a", "b") && Parent(g, "b", "a");
  }
}
