/**
 Ancestry in a set of commits that may lack some of their parents
 (src/citation_audit.rs:1875-1942), for any type of commit hash.
 */
module CommitGraph {
  import opened Counting

  datatype Graph<T> = Graph(nodes: set<T>, parentsOf: map<T, seq<T>>)

  // `v` is a parent of `u`, and in the set.
  ghost predicate Parent<T>(g: Graph<T>, u: T, v: T) {
    u in g.parentsOf && v in g.parentsOf[u] && v in g.nodes
  }

  ghost predicate IsChain<T>(g: Graph<T>, p: seq<T>, u: T, v: T) {
    && |p| >= 2 && p[0] == u && p[|p| - 1] == v
    && forall i :: 0 <= i < |p| - 1 ==> Parent(g, p[i], p[i + 1])
  }

  // `v` is a strict ancestor of `u` through commits of the set.
  ghost predicate Ancestor<T(!new)>(g: Graph<T>, u: T, v: T) {
    exists p :: IsChain(g, p, u, v)
  }

  ghost predicate Acyclic<T(!new)>(g: Graph<T>) {
    forall u :: !Ancestor(g, u, u)
  }

  // Nobody's parent.
  ghost predicate IsTip<T(!new)>(g: Graph<T>, u: T) {
    u in g.nodes && forall w :: w in g.parentsOf ==> u !in g.parentsOf[w]
  }

  ghost predicate HasParent<T(!new)>(g: Graph<T>, u: T) {
    exists v :: Parent(g, u, v)
  }

  lemma ParentIsAncestor<T(!new)>(g: Graph<T>, u: T, v: T)
    requires Parent(g, u, v)
    ensures Ancestor(g, u, v)
  {
    assert IsChain(g, [u, v], u, v);
  }

  lemma AncestorStep<T(!new)>(g: Graph<T>, u: T, v: T, w: T)
    requires Ancestor(g, u, v) && Parent(g, v, w)
    ensures Ancestor(g, u, w)
  {
    var p :| IsChain(g, p, u, v);
    assert IsChain(g, p + [w], u, w);
  }

  lemma ChildStep<T(!new)>(g: Graph<T>, t: T, u: T, v: T)
    requires Parent(g, t, u) && Ancestor(g, u, v)
    ensures Ancestor(g, t, v)
  {
    var p :| IsChain(g, p, u, v);
    assert IsChain(g, [t] + p, t, v);
  }

  // A set that holds the parents of `u` and of its own members holds the ancestors.
  lemma ClosedHoldsAncestors<T(!new)>(g: Graph<T>, u: T, s: set<T>, p: seq<T>, v: T)
    requires forall w :: Parent(g, u, w) ==> w in s
    requires forall x, w :: x in s && Parent(g, x, w) ==> w in s
    requires IsChain(g, p, u, v)
    ensures v in s
    decreases |p|
  {
    if |p| > 2 {
      ClosedHoldsAncestors(g, u, s, p[..|p| - 1], p[|p| - 2]);
    }
    assert Parent(g, p[|p| - 2], p[|p| - 1]);
  }

  lemma AncestorsAreNodes<T(!new)>(g: Graph<T>, u: T, v: T)
    requires Ancestor(g, u, v)
    ensures v in g.nodes && HasParent(g, u)
  {
    var p :| IsChain(g, p, u, v);
    assert Parent(g, p[|p| - 2], p[|p| - 1]) && Parent(g, p[0], p[1]);
  }

  // ---------------------------------------------------------------- the walk

  // Everything found so far, with what still waits on the stack.
  ghost predicate WalkInv<T(!new)>(g: Graph<T>, start: T, seen: set<T>, stack: seq<T>) {
    && seen <= g.nodes
    && (forall v :: v in seen ==> Ancestor(g, start, v))
    && (forall v :: v in stack ==> v == start || v in seen)
    && (forall u, v :: (u == start || u in seen) && u !in stack && Parent(g, u, v) ==> v in seen)
  }

  method AncestorsOf<T(==,!new)>(g: Graph<T>, start: T) returns (seen: set<T>)
    ensures forall v :: v in seen <==> Ancestor(g, start, v)
  {
    seen := {};
    var stack := [start];
    while stack != []
      invariant WalkInv(g, start, seen, stack)
      decreases |g.nodes - seen|, |stack|
    {
      seen, stack := Pop(g, start, seen, stack);
    }
    forall v | Ancestor(g, start, v) ensures v in seen {
      var p :| IsChain(g, p, start, v);
      ClosedHoldsAncestors(g, start, seen, p, v);
    }
  }

  // One round: the top of the stack is replaced by its parents not seen before.
  method Pop<T(==,!new)>(g: Graph<T>, ghost start: T, seen0: set<T>, stack0: seq<T>)
    returns (seen: set<T>, stack: seq<T>)
    requires WalkInv(g, start, seen0, stack0) && stack0 != []
    ensures WalkInv(g, start, seen, stack)
    ensures |g.nodes - seen| < |g.nodes - seen0| || (seen == seen0 && |stack| < |stack0|)
  {
    var current := stack0[|stack0| - 1];
    seen, stack := seen0, stack0[..|stack0| - 1];
    assert stack0 == stack + [current];
    if current in g.parentsOf {
      seen, stack := PushParents(g, start, seen, stack, current);
    }
    if seen != seen0 { FewerLeft(g.nodes, seen0, seen); }
  }

  method PushParents<T(==,!new)>(g: Graph<T>, ghost start: T, seen0: set<T>, stack0: seq<T>, current: T)
    returns (seen: set<T>, stack: seq<T>)
    requires current in g.parentsOf && (current == start || current in seen0) && seen0 <= g.nodes
    requires forall v :: v in seen0 ==> Ancestor(g, start, v)
    requires forall v :: v in stack0 ==> v == start || v in seen0
    ensures seen0 <= seen <= g.nodes
    ensures forall v :: v in seen ==> Ancestor(g, start, v)
    ensures forall v :: v in stack ==> v == start || v in seen
    ensures forall v :: v in seen ==> v in seen0 || v in stack
    ensures forall v :: v in stack0 ==> v in stack
    ensures forall v :: Parent(g, current, v) ==> v in seen
    ensures seen == seen0 ==> stack == stack0
  {
    seen, stack := seen0, stack0;
    var parents := g.parentsOf[current];
    for k := 0 to |parents|
      invariant seen0 <= seen <= g.nodes
      invariant forall v :: v in seen ==> Ancestor(g, start, v)
      invariant forall v :: v in stack ==> v == start || v in seen
      invariant forall v :: v in seen ==> v in seen0 || v in stack
      invariant forall v :: v in stack0 ==> v in stack
      invariant forall v :: v in parents[..k] && v in g.nodes ==> v in seen
      invariant seen == seen0 ==> stack == stack0
    {
      var parent := parents[k];
      if parent in g.nodes && parent !in seen {
        FoundIsAncestor(g, start, seen0, current, parent);
        seen, stack := seen + {parent}, stack + [parent];
      }
    }
  }

  lemma FoundIsAncestor<T(!new)>(g: Graph<T>, start: T, seen: set<T>, current: T, parent: T)
    requires (forall v :: v in seen ==> Ancestor(g, start, v)) && (current == start || current in seen)
    requires Parent(g, current, parent)
    ensures Ancestor(g, start, parent)
  {
    if current == start { ParentIsAncestor(g, start, parent); } else { AncestorStep(g, start, current, parent); }
  }

  lemma FewerLeft<T>(nodes: set<T>, s0: set<T>, s1: set<T>)
    requires s0 < s1 <= nodes
    ensures |nodes - s1| < |nodes - s0|
  {
    var v :| v in s1 && v !in s0;
    SubsetSize(nodes - s1, nodes - s0 - {v});
  }

  // ---------------------------------------------------------------- without cycles

  ghost function Ancestors<T(!new)>(g: Graph<T>, u: T): (s: set<T>)
    ensures forall v :: v in s <==> Ancestor(g, u, v)
  {
    forall v | Ancestor(g, u, v) ensures v in g.nodes { AncestorsAreNodes(g, u, v); }
    set v | v in g.nodes && Ancestor(g, u, v)
  }

  ghost function Descendants<T(!new)>(g: Graph<T>, v: T): (s: set<T>)
    ensures forall u :: u in s <==> Ancestor(g, u, v)
  {
    forall u | Ancestor(g, u, v) ensures u in g.parentsOf { AncestorsAreNodes(g, u, v); }
    set u | u in g.parentsOf.Keys && Ancestor(g, u, v)
  }

  // Going down from a commit that has a parent ends at one that has none.
  lemma RootBelow<T(!new)>(g: Graph<T>, u: T) returns (r: T)
    requires Acyclic(g) && HasParent(g, u)
    ensures Ancestor(g, u, r) && !HasParent(g, r)
    decreases |Ancestors(g, u)|
  {
    var v :| Parent(g, u, v);
    ParentIsAncestor(g, u, v);
    if HasParent(g, v) {
      forall w | w in Ancestors(g, v) ensures w in Ancestors(g, u) - {v} { ChildStep(g, u, v, w); }
      SubsetSize(Ancestors(g, v), Ancestors(g, u) - {v});
      r := RootBelow(g, v);
      ChildStep(g, u, v, r);
    } else {
      r := v;
    }
  }

  // Going up from a commit ends at a tip, which still has a parent.
  lemma TipAbove<T(!new)>(g: Graph<T>, u: T) returns (t: T)
    requires Acyclic(g) && HasParent(g, u) && u in g.nodes && g.parentsOf.Keys <= g.nodes
    ensures IsTip(g, t) && HasParent(g, t)
    decreases |Descendants(g, u)|
  {
    if IsTip(g, u) {
      t := u;
    } else {
      var w :| w in g.parentsOf && u in g.parentsOf[w];
      assert Parent(g, w, u);
      ParentIsAncestor(g, w, u);
      forall x | x in Descendants(g, w) ensures x in Descendants(g, u) - {w} { AncestorStep(g, x, w, u); }
      SubsetSize(Descendants(g, w), Descendants(g, u) - {w});
      t := TipAbove(g, w);
    }
  }
}
