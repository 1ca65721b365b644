/**
 Edge matching of the accuracy evaluation (src/accuracy.rs): a scanned edge whose
 ends are matched stands for one labelled edge, identified by its label and the
 labels of its ends.
 */
module AccuracyEdges {
  import opened Wrappers
  import opened Counting
  import opened Listing
  import opened Accuracy

  // What a labelled edge is looked up by.
  datatype Key = Key(tag: Token, source: Token, target: Token)

  function Want(e: LabeledEdge): Key {
    Key(e.tag, e.source, e.target)
  }

  // Every scanned ID stands for a label.
  predicate Bounded(expectedOf: map<Token, nat>, labels: seq<LabeledNode>) {
    forall id :: id in expectedOf ==> expectedOf[id] < |labels|
  }

  // The key a scanned edge is worth, when both of its ends are matched.
  function Worth(labels: seq<LabeledNode>, expectedOf: map<Token, nat>, a: ScannedEdge): Option<Key>
    requires Bounded(expectedOf, labels)
  {
    if a.source in expectedOf && a.target in expectedOf
    then Some(Key(a.tag, labels[expectedOf[a.source]].id, labels[expectedOf[a.target]].id))
    else None
  }

  function Wants(edges: seq<LabeledEdge>): seq<Key> {
    seq(|edges|, i requires 0 <= i < |edges| => Want(edges[i]))
  }

  function Worths(labels: seq<LabeledNode>, expectedOf: map<Token, nat>, edges: seq<ScannedEdge>): seq<Option<Key>>
    requires Bounded(expectedOf, labels)
  {
    seq(|edges|, i requires 0 <= i < |edges| => Worth(labels, expectedOf, edges[i]))
  }

  // The first free labelled edge with this key, else the length.
  function FirstWanting(want: seq<Key>, key: Key, taken: set<nat>, e: nat): (r: nat)
    requires e <= |want|
    ensures e <= r <= |want|
    ensures r < |want| ==> r !in taken && want[r] == key
    ensures forall k :: e <= k < r ==> k in taken || want[k] != key
    decreases |want| - e
  {
    if e == |want| then e
    else if e !in taken && want[e] == key then e
    else FirstWanting(want, key, taken, e + 1)
  }

  // The matching after the first `n` scanned edges.
  function GreedyEdges(want: seq<Key>, worth: seq<Option<Key>>, ids: seq<Token>, n: nat): Matching
    requires n <= |worth| == |ids|
  {
    if n == 0 then Matching(map[], {})
    else EdgeStep(GreedyEdges(want, worth, ids, n - 1), want, worth[n - 1], ids[n - 1], n - 1)
  }

  // What scanned edge `a`, worth a key or none, adds to a matching.
  function EdgeStep(m: Matching, want: seq<Key>, worth: Option<Key>, id: Token, a: nat): Matching {
    if worth.None? then m
    else
      var e := FirstWanting(want, worth.value, m.pairs.Values, 0);
      if e < |want| then Matching(m.pairs[a := e], m.ids + {id}) else m
  }

  method MatchEdges(labels: seq<LabeledNode>, expectedOf: map<Token, nat>, labeled: seq<LabeledEdge>, scanned: seq<ScannedEdge>)
    returns (matchedExpected: set<nat>, matchedActual: set<Token>)
    requires Bounded(expectedOf, labels)
    ensures var m := GreedyEdges(Wants(labeled), Worths(labels, expectedOf, scanned), EdgeIds(scanned), |scanned|);
            matchedExpected == m.pairs.Values && matchedActual == m.ids
  {
    matchedExpected, matchedActual := {}, {};
    ghost var want, worth, ids := Wants(labeled), Worths(labels, expectedOf, scanned), EdgeIds(scanned);
    ghost var m := Matching(map[], {});
    for k := 0 to |scanned|
      invariant m == GreedyEdges(want, worth, ids, k)
      invariant forall i :: i in m.pairs ==> i < k
      invariant matchedExpected == m.pairs.Values && matchedActual == m.ids
    {
      var act := scanned[k];
      if act.source in expectedOf && act.target in expectedOf {
        var source := labels[expectedOf[act.source]].id;
        var target := labels[expectedOf[act.target]].id;
        ghost var key := Key(act.tag, source, target);
        assert worth[k] == Some(key);
        var e := 0;
        while e < |labeled|
          invariant e <= |labeled|
          invariant FirstWanting(want, key, matchedExpected, 0) == FirstWanting(want, key, matchedExpected, e)
        {
          if e !in matchedExpected && labeled[e].tag == act.tag && labeled[e].source == source && labeled[e].target == target {
            break;
          }
          e := e + 1;
        }
        if e < |labeled| {
          NewPair(m.pairs, k, e);
          matchedExpected := matchedExpected + {e};
          matchedActual := matchedActual + {act.id};
          m := Matching(m.pairs[k := e], m.ids + {ids[k]});
        }
      }
    }
  }

  function EdgeIds(edges: seq<ScannedEdge>): seq<Token> {
    seq(|edges|, i requires 0 <= i < |edges| => edges[i].id)
  }

  function LabeledLabels(edges: seq<LabeledEdge>): seq<Token> {
    seq(|edges|, i requires 0 <= i < |edges| => edges[i].tag)
  }

  function ScannedLabels(edges: seq<ScannedEdge>): seq<Token> {
    seq(|edges|, i requires 0 <= i < |edges| => edges[i].tag)
  }

  predicate Fits(want: seq<Key>, worth: seq<Option<Key>>, a: nat, e: nat) {
    a < |worth| && e < |want| && worth[a] == Some(want[e])
  }

  ghost predicate IsMatching(want: seq<Key>, worth: seq<Option<Key>>, m: map<nat, nat>) {
    OneToOne(m) && forall a :: a in m ==> Fits(want, worth, a, m[a])
  }

  lemma {:induction false} GreedyEdgesMatch(want: seq<Key>, worth: seq<Option<Key>>, ids: seq<Token>, n: nat)
    requires n <= |worth| == |ids|
    ensures var m := GreedyEdges(want, worth, ids, n);
            && IsMatching(want, worth, m.pairs)
            && (forall a :: a in m.pairs ==> a < n && ids[a] in m.ids)
            && (Distinct(ids) ==> forall j :: 0 <= j < |ids| ==> (ids[j] in m.ids <==> j in m.pairs))
  {
    if n > 0 {
      GreedyEdgesMatch(want, worth, ids, n - 1);
    }
  }

  lemma {:induction false} GreedyEdgesMaximal(want: seq<Key>, worth: seq<Option<Key>>, ids: seq<Token>, n: nat, a: nat, e: nat)
    requires a < n <= |worth| == |ids| && Fits(want, worth, a, e)
    ensures var m := GreedyEdges(want, worth, ids, n); a in m.pairs || e in m.pairs.Values
  {
    var m0 := GreedyEdges(want, worth, ids, n - 1);
    GreedyEdgesMatch(want, worth, ids, n - 1);
    if worth[n - 1].Some? {
      var f := FirstWanting(want, worth[n - 1].value, m0.pairs.Values, 0);
      if f < |want| { NewPair(m0.pairs, n - 1, f); }
    }
    if a < n - 1 {
      GreedyEdgesMaximal(want, worth, ids, n - 1, a, e);
    }
  }

  // Unlike for nodes, greedy edge matching is optimal: no other one-to-one choice
  // of fitting pairs is larger.
  lemma GreedyEdgesOptimal(want: seq<Key>, worth: seq<Option<Key>>, ids: seq<Token>, other: map<nat, nat>)
    requires |worth| == |ids| && IsMatching(want, worth, other)
    ensures |other| <= |GreedyEdges(want, worth, ids, |worth|).pairs|
  {
    var m := GreedyEdges(want, worth, ids, |worth|).pairs;
    GreedyEdgesMatch(want, worth, ids, |worth|);
    forall a, e | Fits(want, worth, a, e) ensures a in m || e in m.Values {
      GreedyEdgesMaximal(want, worth, ids, |worth|, a, e);
    }
    MaximalByKeyIsOptimal(want, worth, m, other);
  }

  // A key is exhausted when every labelled edge with it is matched.
  ghost predicate Exhausted(want: seq<Key>, m: map<nat, nat>, key: Option<Key>) {
    forall e: nat :: e < |want| && Some(want[e]) == key ==> e in m.Values
  }

  lemma MaximalByKeyIsOptimal(want: seq<Key>, worth: seq<Option<Key>>, m: map<nat, nat>, other: map<nat, nat>)
    requires IsMatching(want, worth, m) && IsMatching(want, worth, other)
    requires forall a, e :: Fits(want, worth, a, e) ==> a in m || e in m.Values
    ensures |other| <= |m|
  {
    SpentKeys(want, worth, m, other);
    OpenKeys(want, worth, m, other);
    SplitSize(other.Keys, Spent(want, worth, m, other.Keys));
    SplitSize(m.Keys, Spent(want, worth, m, m.Keys));
  }

  // The positions among `keys` whose key is exhausted.
  ghost function Spent(want: seq<Key>, worth: seq<Option<Key>>, m: map<nat, nat>, keys: set<nat>): set<nat> {
    set a | a in keys && a < |worth| && Exhausted(want, m, worth[a])
  }

  // On the other keys, every scanned edge `other` uses is one that `m` uses.
  lemma OpenKeys(want: seq<Key>, worth: seq<Option<Key>>, m: map<nat, nat>, other: map<nat, nat>)
    requires forall a :: a in other ==> Fits(want, worth, a, other[a])
    requires forall a, e :: Fits(want, worth, a, e) ==> a in m || e in m.Values
    ensures |other.Keys - Spent(want, worth, m, other.Keys)| <= |m.Keys - Spent(want, worth, m, m.Keys)|
  {
    var open := other.Keys - Spent(want, worth, m, other.Keys);
    forall a | a in open ensures a in m.Keys {
      assert !Exhausted(want, m, worth[a]);
      var e: nat :| e < |want| && Some(want[e]) == worth[a] && e !in m.Values;
      assert Fits(want, worth, a, e);
    }
    SubsetSize(open, m.Keys - Spent(want, worth, m, m.Keys));
  }

  // On exhausted keys, every label `other` uses is one that `m` uses.
  lemma SpentKeys(want: seq<Key>, worth: seq<Option<Key>>, m: map<nat, nat>, other: map<nat, nat>)
    requires IsMatching(want, worth, m) && IsMatching(want, worth, other)
    ensures |Spent(want, worth, m, other.Keys)| <= |Spent(want, worth, m, m.Keys)|
  {
    var spent, mine := Spent(want, worth, m, other.Keys), Spent(want, worth, m, m.Keys);
    forall a | a in spent ensures other[a] in m.Values && KeyOf(m, other[a]) in mine {
      assert Fits(want, worth, a, other[a]);
      assert Fits(want, worth, KeyOf(m, other[a]), other[a]);
    }
    var rival := map a | a in spent :: KeyOf(m, other[a]);
    InjectionSize(rival, spent, mine);
  }

  ghost function EdgeMatching(labels: seq<LabeledNode>, expectedOf: map<Token, nat>, labeled: seq<LabeledEdge>,
                              scanned: seq<ScannedEdge>): Matching
    requires Bounded(expectedOf, labels)
  {
    GreedyEdges(Wants(labeled), Worths(labels, expectedOf, scanned), EdgeIds(scanned), |scanned|)
  }

  // The two passes: the edges are matched through what the nodes were matched with.
  method MatchAll(labels: seq<LabeledNode>, nodes: seq<ScannedNode>, tolerance: nat,
                  labeled: seq<LabeledEdge>, edges: seq<ScannedEdge>)
    returns (expectedNodes: set<nat>, actualNodes: set<Token>, expectedOf: map<Token, nat>,
             expectedEdges: set<nat>, actualEdges: set<Token>)
    ensures var m := NodeMatching(labels, nodes, tolerance); expectedNodes == m.pairs.Values && actualNodes == m.ids
    ensures IsExpectedOf(expectedOf, labels, nodes, tolerance)
    ensures var m := EdgeMatching(labels, expectedOf, labeled, edges);
            expectedEdges == m.pairs.Values && actualEdges == m.ids
  {
    expectedNodes, actualNodes, expectedOf := MatchNodes(labels, nodes, tolerance);
    expectedEdges, actualEdges := MatchEdges(labels, expectedOf, labeled, edges);
  }

  // The true and false positives of a label add up to the scanned edges with it.
  ghost predicate EdgesAddUp(labels: seq<LabeledNode>, expectedOf: map<Token, nat>, labeled: seq<LabeledEdge>,
                             scanned: seq<ScannedEdge>, tag: Token)
    requires Bounded(expectedOf, labels)
  {
    var m := EdgeMatching(labels, expectedOf, labeled, scanned);
    |ClassOf(LabeledLabels(labeled), tag) * m.pairs.Values|
    + |SpuriousOf(ScannedLabels(scanned), EdgeIds(scanned), tag, m.ids)|
    == |ClassOf(ScannedLabels(scanned), tag)|
  }

  // For every label, matched and missed labelled edges add up to the labelled edges;
  // and matched and spurious ones to the scanned edges exactly when none of these is
  // hidden by another one with its ID.
  lemma EdgeCountsAreConserved(labels: seq<LabeledNode>, expectedOf: map<Token, nat>, labeled: seq<LabeledEdge>,
                               scanned: seq<ScannedEdge>, tag: Token)
    requires Bounded(expectedOf, labels)
    ensures var m := EdgeMatching(labels, expectedOf, labeled, scanned);
            var mine := ClassOf(LabeledLabels(labeled), tag);
            && |mine * m.pairs.Values| + |mine - m.pairs.Values| == |mine|
            && (EdgesAddUp(labels, expectedOf, labeled, scanned, tag) <==>
                  HiddenOf(ScannedLabels(scanned), EdgeIds(scanned), tag, m.pairs.Keys, m.ids) == {})
  {
    var m := EdgeMatching(labels, expectedOf, labeled, scanned);
    MatchedKeepLabels(labels, expectedOf, labeled, scanned);
    ClassCountsAreConserved(LabeledLabels(labeled), ScannedLabels(scanned), EdgeIds(scanned), tag, m.pairs, m.ids);
  }

  lemma MatchedKeepLabels(labels: seq<LabeledNode>, expectedOf: map<Token, nat>, labeled: seq<LabeledEdge>,
                          scanned: seq<ScannedEdge>)
    requires Bounded(expectedOf, labels)
    ensures var m := EdgeMatching(labels, expectedOf, labeled, scanned);
      && OneToOne(m.pairs)
      && (forall j :: j in m.pairs ==> j < |scanned| && EdgeIds(scanned)[j] in m.ids)
      && forall j :: j in m.pairs ==>
           m.pairs[j] < |labeled| && ScannedLabels(scanned)[j] == LabeledLabels(labeled)[m.pairs[j]]
  {
    var want, worth := Wants(labeled), Worths(labels, expectedOf, scanned);
    var m := EdgeMatching(labels, expectedOf, labeled, scanned);
    GreedyEdgesMatch(want, worth, EdgeIds(scanned), |scanned|);
    assert forall j :: j in m.pairs ==> Fits(want, worth, j, m.pairs[j]);
  }

  // What the evaluation of any graph with these edges reports adds up.
  ghost predicate AlwaysAddUp(scanned: seq<ScannedEdge>, tolerance: nat) {
    forall labels, nodes, expectedOf, labeled, tag ::
      IsExpectedOf(expectedOf, labels, nodes, tolerance) ==> EdgesAddUp(labels, expectedOf, labeled, scanned, tag)
  }

  // Whatever the nodes and the labels, the counts add up: that is so exactly when no
  // scanned edge ID is repeated.
  lemma EdgeCountsNeedDistinctIds(scanned: seq<ScannedEdge>, tolerance: nat)
    ensures Distinct(EdgeIds(scanned)) <==> AlwaysAddUp(scanned, tolerance)
  {
    var ids := EdgeIds(scanned);
    if Distinct(ids) {
      forall labels, nodes, expectedOf, labeled, tag | IsExpectedOf(expectedOf, labels, nodes, tolerance)
        ensures EdgesAddUp(labels, expectedOf, labeled, scanned, tag)
      {
        GreedyEdgesMatch(Wants(labeled), Worths(labels, expectedOf, scanned), ids, |scanned|);
        EdgeCountsAreConserved(labels, expectedOf, labeled, scanned, tag);
      }
    } else {
      var i, j :| 0 <= i < |ids| && 0 <= j < |ids| && ids[i] == ids[j] && i != j;
      RepeatedEdgeIdHides(scanned, tolerance, if i < j then i else j, if i < j then j else i);
    }
  }

  // The positions up to `i` that are worth a key.
  ghost function WorthUpTo(worth: seq<Option<Key>>, key: Key, i: nat): set<nat>
    requires i < |worth|
  {
    set a: nat | a <= i && worth[a] == Some(key)
  }

  // With as many labels under one key as there are scanned edges for it up to `i`,
  // these are matched and no label is left.
  lemma LabelsRunOut(worth: seq<Option<Key>>, ids: seq<Token>, key: Key, i: nat)
    requires i < |worth| == |ids|
    ensures var n := |WorthUpTo(worth, key, i)|;
            var m := GreedyEdges(Copies(key, n), worth, ids, i + 1);
            m.pairs.Keys == WorthUpTo(worth, key, i) && m.pairs.Values == Below(n)
  {
    var fit := WorthUpTo(worth, key, i);
    var want := Copies(key, |fit|);
    var m := GreedyEdges(want, worth, ids, i + 1);
    GreedyEdgesMatch(want, worth, ids, i + 1);
    forall a | a in m.pairs ensures a in fit && m.pairs[a] in Below(|fit|) {
      assert Fits(want, worth, a, m.pairs[a]);
    }
    forall a, e | a in fit && e in Below(|fit|) ensures a in m.pairs || e in m.pairs.Values {
      assert Fits(want, worth, a, e);
      GreedyEdgesMaximal(want, worth, ids, i + 1, a, e);
    }
    MaximalFills(m.pairs, fit, Below(|fit|));
  }

  // When no label is left, nothing more is matched.
  lemma {:induction false} NothingLeft(want: seq<Key>, worth: seq<Option<Key>>, ids: seq<Token>, k: nat, n: nat)
    requires k <= n <= |worth| == |ids|
    requires Below(|want|) <= GreedyEdges(want, worth, ids, k).pairs.Values
    ensures GreedyEdges(want, worth, ids, n) == GreedyEdges(want, worth, ids, k)
  {
    if k < n {
      NothingLeft(want, worth, ids, k, n - 1);
      StepFindsNone(GreedyEdges(want, worth, ids, k), want, worth[n - 1], ids[n - 1], n - 1);
    }
  }

  lemma StepFindsNone(m: Matching, want: seq<Key>, worth: Option<Key>, id: Token, a: nat)
    requires Below(|want|) <= m.pairs.Values
    ensures EdgeStep(m, want, worth, id, a) == m
  {
    if worth.Some? { NoneFree(want, worth.value, m.pairs.Values); }
  }

  lemma NoneFree(want: seq<Key>, key: Key, taken: set<nat>)
    requires Below(|want|) <= taken
    ensures FirstWanting(want, key, taken, 0) == |want|
  {
    assert forall e :: e in Below(|want|) ==> e in taken;
    assert forall e: nat :: e < |want| ==> e in Below(|want|);
  }

  // Of two positions under one ID, labels exist for which the earlier one is matched
  // and the later one is not.
  lemma LaterStaysFree(worth: seq<Option<Key>>, ids: seq<Token>, key: Key, i: nat, j: nat)
    requires i < j < |worth| == |ids| && ids[i] == ids[j] && worth[i] == Some(key)
    ensures var want := Copies(key, |WorthUpTo(worth, key, i)|);
            var m := GreedyEdges(want, worth, ids, |worth|);
            j !in m.pairs && ids[j] in m.ids
  {
    var want := Copies(key, |WorthUpTo(worth, key, i)|);
    LabelsRunOut(worth, ids, key, i);
    NothingLeft(want, worth, ids, i + 1, |worth|);
    GreedyEdgesMatch(want, worth, ids, |worth|);
    assert i in WorthUpTo(worth, key, i) && j !in WorthUpTo(worth, key, i);
  }

  // A graph whose nodes have these IDs, and labels for all of them under one ID.
  function PlainNodes(ids: seq<Token>): seq<ScannedNode> {
    seq(|ids|, i requires 0 <= i < |ids| => ScannedNode(ids[i], 0, None, None, None, None))
  }

  function PlainLabels(n: nat): seq<LabeledNode> {
    Copies(LabeledNode(0, 0, None, None, None, None), n)
  }

  lemma PlainNodesAreMatched(ids: seq<Token>, tolerance: nat)
    ensures forall id :: id in ids ==> id in NodeMatching(PlainLabels(|ids|), PlainNodes(ids), tolerance).ids
  {
    var nodes := PlainNodes(ids);
    forall i | 0 <= i < |ids| ensures ids[i] in NodeMatching(PlainLabels(|ids|), nodes, tolerance).ids {
      assert LabelFor(nodes[i]) == LabeledNode(0, 0, None, None, None, None);
      CopiesTakeId(nodes, tolerance, i);
    }
  }

  function Ends(edges: seq<ScannedEdge>): seq<Token> {
    if edges == [] then [] else Ends(edges[..|edges| - 1]) + [edges[|edges| - 1].source, edges[|edges| - 1].target]
  }

  lemma {:induction false} EndsOf(edges: seq<ScannedEdge>, i: nat)
    requires i < |edges|
    ensures edges[i].source in Ends(edges) && edges[i].target in Ends(edges)
  {
    if i < |edges| - 1 {
      EndsOf(edges[..|edges| - 1], i);
    } else {
      var last := [edges[i].source, edges[i].target];
      assert Ends(edges) == Ends(edges[..i]) + last && last[0] in last && last[1] in last;
    }
  }

  // Nodes and labels for which a scanned edge is worth its label alone.
  lemma PlainWorths(edges: seq<ScannedEdge>, tolerance: nat)
    returns (labels: seq<LabeledNode>, nodes: seq<ScannedNode>, expectedOf: map<Token, nat>)
    ensures IsExpectedOf(expectedOf, labels, nodes, tolerance)
    ensures forall a :: 0 <= a < |edges| ==> Worths(labels, expectedOf, edges)[a] == Some(Key(edges[a].tag, 0, 0))
  {
    labels, nodes := PlainLabels(|Ends(edges)|), PlainNodes(Ends(edges));
    expectedOf := ExpectedOfExists(labels, nodes, tolerance);
    PlainNodesAreMatched(Ends(edges), tolerance);
    forall a | 0 <= a < |edges| ensures Worths(labels, expectedOf, edges)[a] == Some(Key(edges[a].tag, 0, 0)) {
      EndsOf(edges, a);
    }
  }

  // Two edges under one ID: nodes and labels exist for which one hides the other.
  lemma RepeatedEdgeIdHides(scanned: seq<ScannedEdge>, tolerance: nat, i: nat, j: nat)
    requires i < j < |scanned| && scanned[i].id == scanned[j].id
    ensures !AlwaysAddUp(scanned, tolerance)
  {
    var labels, nodes, expectedOf := PlainWorths(scanned, tolerance);
    var worth, tag := Worths(labels, expectedOf, scanned), scanned[i].tag;
    var key := Key(tag, 0, 0);
    var labeled := Copies(LabeledEdge(tag, 0, 0), |WorthUpTo(worth, key, i)|);
    assert Wants(labeled) == Copies(key, |labeled|);
    LaterStaysFree(worth, EdgeIds(scanned), key, i, j);
    var m := EdgeMatching(labels, expectedOf, labeled, scanned);
    assert j in HiddenOf(ScannedLabels(scanned), EdgeIds(scanned), scanned[j].tag, m.pairs.Keys, m.ids);
    EdgeCountsAreConserved(labels, expectedOf, labeled, scanned, scanned[j].tag);
    assert !EdgesAddUp(labels, expectedOf, labeled, scanned, scanned[j].tag);
  }
}
