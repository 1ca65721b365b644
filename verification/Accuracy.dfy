/**
 Extraction accuracy (src/accuracy.rs): labelled nodes are matched one-to-one
 with scanned nodes by a greedy pass, labelled edges with scanned edges through
 the node matching, and every class is scored by its matched and unmatched members.
 */
module Accuracy {
  import opened Wrappers
  import opened Counting
  import opened Listing

  // An ID, kind, name or label: only ever compared for equality.
  type Token = nat

  datatype Span = Span(startLine: nat, endLine: nat)

  datatype LabeledNode = LabeledNode(
    id: Token, kind: Token, name: Option<Token>, path: Option<string>,
    symbolKind: Option<Token>, span: Option<Span>)

  datatype ScannedNode = ScannedNode(
    id: Token, kind: Token, path: Option<string>, span: Option<Span>,
    name: Option<Token>, symbolKind: Option<Token>)

  datatype LabeledEdge = LabeledEdge(tag: Token, source: Token, target: Token)
  datatype ScannedEdge = ScannedEdge(id: Token, tag: Token, source: Token, target: Token)

  datatype Metric = Metric(truePositives: nat, falsePositives: nat, falseNegatives: nat)

  // ---------------------------------------------------------------- compatibility

  function Slash(c: char): char {
    if c == '\\' then '/' else c
  }

  // Equal once backslashes are read as slashes.
  predicate EqualNormalized(a: string, b: string) {
    if a == [] || b == [] then a == [] && b == []
    else Slash(a[0]) == Slash(b[0]) && EqualNormalized(a[1..], b[1..])
  }

  lemma EqualNormalizedMeans(a: string, b: string)
    ensures EqualNormalized(a, b) <==> |a| == |b| && forall i :: 0 <= i < |a| ==> Slash(a[i]) == Slash(b[i])
  {
    if a != [] && b != [] {
      EqualNormalizedMeans(a[1..], b[1..]);
      assert forall i :: 0 < i < |a| ==> a[i] == a[1..][i - 1];
      assert forall i :: 0 < i < |b| ==> b[i] == b[1..][i - 1];
    }
  }

  method PathEqualsNormalized(a: string, b: string) returns (same: bool)
    ensures same <==> EqualNormalized(a, b)
  {
    var i := 0;
    while true
      invariant i <= |a| && i <= |b|
      invariant EqualNormalized(a, b) <==> EqualNormalized(a[i..], b[i..])
      decreases |a| - i
    {
      if i == |a| || i == |b| {
        return i == |a| && i == |b|;
      }
      if Slash(a[i]) != Slash(b[i]) {
        return false;
      }
      assert a[i..][1..] == a[i + 1..] && b[i..][1..] == b[i + 1..];
      i := i + 1;
    }
  }

  function AbsDiff(a: nat, b: nat): nat {
    if a < b then b - a else a - b
  }

  predicate SpanMatches(actual: Span, expected: Span, tolerance: nat) {
    && AbsDiff(actual.startLine, expected.startLine) <= tolerance
    && AbsDiff(actual.endLine, expected.endLine) <= tolerance
  }

  predicate SamePath(a: Option<string>, b: Option<string>) {
    if a.Some? && b.Some? then EqualNormalized(a.value, b.value) else a.None? && b.None?
  }

  // A label without a symbol kind or a span does not constrain it.
  predicate Compatible(exp: LabeledNode, act: ScannedNode, tolerance: nat) {
    && act.kind == exp.kind
    && SamePath(act.path, exp.path)
    && act.name == exp.name
    && (exp.symbolKind.Some? ==> act.symbolKind == exp.symbolKind)
    && (exp.span.Some? ==> act.span.Some? && SpanMatches(act.span.value, exp.span.value, tolerance))
  }

  method IsCompatible(exp: LabeledNode, act: ScannedNode, tolerance: nat) returns (ok: bool)
    ensures ok <==> Compatible(exp, act, tolerance)
  {
    if act.kind != exp.kind { return false; }
    if act.path.Some? && exp.path.Some? {
      var same := PathEqualsNormalized(act.path.value, exp.path.value);
      if !same { return false; }
    } else if act.path.Some? || exp.path.Some? {
      return false;
    }
    if act.name != exp.name { return false; }
    if exp.symbolKind.Some? && act.symbolKind != exp.symbolKind { return false; }
    if exp.span.Some? {
      if act.span.None? || !SpanMatches(act.span.value, exp.span.value, tolerance) { return false; }
    }
    return true;
  }

  // ---------------------------------------------------------------- node matching

  // The scanned positions each label is compatible with.
  ghost function FitsOf(labels: seq<LabeledNode>, scanned: seq<ScannedNode>, tolerance: nat): (fits: seq<set<nat>>)
    ensures |fits| == |labels|
    ensures forall e :: 0 <= e < |labels| ==> fits[e] == FitOf(labels[e], scanned, tolerance)
  {
    seq(|labels|, e requires 0 <= e < |labels| => FitOf(labels[e], scanned, tolerance))
  }

  ghost function FitOf(exp: LabeledNode, scanned: seq<ScannedNode>, tolerance: nat): set<nat> {
    set j: nat | j < |scanned| && Compatible(exp, scanned[j], tolerance)
  }

  function ScannedIds(scanned: seq<ScannedNode>): seq<Token> {
    seq(|scanned|, i requires 0 <= i < |scanned| => scanned[i].id)
  }

  // The first position from `j` on that fits and whose ID is free, else the length.
  ghost function FirstFree(fit: set<nat>, ids: seq<Token>, taken: set<Token>, j: nat): (r: nat)
    requires j <= |ids|
    ensures j <= r <= |ids|
    ensures r < |ids| ==> ids[r] !in taken && r in fit
    ensures forall k :: j <= k < r ==> ids[k] in taken || k !in fit
    decreases |ids| - j
  {
    if j == |ids| then j
    else if ids[j] !in taken && j in fit then j
    else FirstFree(fit, ids, taken, j + 1)
  }

  // Scanned position to label position, and the scanned IDs that are taken.
  datatype Matching = Matching(pairs: map<nat, nat>, ids: set<Token>)

  // The matching after the first `n` labels.
  ghost function GreedyNodes(fits: seq<set<nat>>, ids: seq<Token>, n: nat): Matching
    requires n <= |fits|
  {
    if n == 0 then Matching(map[], {})
    else NodeStep(GreedyNodes(fits, ids, n - 1), fits[n - 1], ids, n - 1)
  }

  // What label `e`, which fits at `fit`, adds to a matching.
  ghost function NodeStep(m: Matching, fit: set<nat>, ids: seq<Token>, e: nat): Matching {
    var j := FirstFree(fit, ids, m.ids, 0);
    if j < |ids| then Matching(m.pairs[j := e], m.ids + {ids[j]}) else m
  }

  ghost function NodeMatching(labels: seq<LabeledNode>, scanned: seq<ScannedNode>, tolerance: nat): Matching {
    GreedyNodes(FitsOf(labels, scanned, tolerance), ScannedIds(scanned), |labels|)
  }

  // The taken IDs, each with the label of the scanned node that took it.
  ghost predicate Points(expectedOf: map<Token, nat>, m: Matching, ids: seq<Token>, n: nat) {
    && expectedOf.Keys == m.ids
    && (forall j :: j in m.pairs ==> j < |ids| && ids[j] in expectedOf && expectedOf[ids[j]] == m.pairs[j])
    && forall id :: id in expectedOf ==> expectedOf[id] < n
  }

  lemma PointsMore(expectedOf: map<Token, nat>, m: Matching, ids: seq<Token>, n: nat, j: nat, e: nat)
    requires Points(expectedOf, m, ids, n) && j < |ids| && ids[j] !in m.ids && e < n
    ensures Points(expectedOf[ids[j] := e], Matching(m.pairs[j := e], m.ids + {ids[j]}), ids, n)
  {
  }

  ghost predicate IsExpectedOf(expectedOf: map<Token, nat>, labels: seq<LabeledNode>, scanned: seq<ScannedNode>,
                               tolerance: nat) {
    Points(expectedOf, NodeMatching(labels, scanned, tolerance), ScannedIds(scanned), |labels|)
  }

  method MatchNodes(labels: seq<LabeledNode>, scanned: seq<ScannedNode>, tolerance: nat)
    returns (matchedExpected: set<nat>, matchedActual: set<Token>, expectedOf: map<Token, nat>)
    ensures var m := NodeMatching(labels, scanned, tolerance);
            matchedExpected == m.pairs.Values && matchedActual == m.ids
    ensures IsExpectedOf(expectedOf, labels, scanned, tolerance)
  {
    matchedExpected, matchedActual, expectedOf := {}, {}, map[];
    ghost var fits, ids := FitsOf(labels, scanned, tolerance), ScannedIds(scanned);
    ghost var m := Matching(map[], {});
    for e := 0 to |labels|
      invariant m == GreedyNodes(fits, ids, e)
      invariant matchedExpected == m.pairs.Values
      invariant matchedActual == m.ids && Points(expectedOf, m, ids, |labels|)
    {
      var j := FindFree(labels[e], scanned, tolerance, matchedActual);
      if j < |scanned| {
        PointsMore(expectedOf, m, ids, |labels|, j, e);
        assert j !in m.pairs;
        NewPair(m.pairs, j, e);
        matchedExpected := matchedExpected + {e};
        matchedActual := matchedActual + {scanned[j].id};
        expectedOf := expectedOf[scanned[j].id := e];
        m := Matching(m.pairs[j := e], m.ids + {ids[j]});
      }
    }
  }

  // The inner loop of the node matching.
  method FindFree(exp: LabeledNode, scanned: seq<ScannedNode>, tolerance: nat, taken: set<Token>) returns (j: nat)
    ensures j == FirstFree(FitOf(exp, scanned, tolerance), ScannedIds(scanned), taken, 0)
  {
    j := 0;
    ghost var fit := FitOf(exp, scanned, tolerance);
    while j < |scanned|
      invariant j <= |scanned|
      invariant FirstFree(fit, ScannedIds(scanned), taken, 0) == FirstFree(fit, ScannedIds(scanned), taken, j)
    {
      if scanned[j].id !in taken {
        var ok := IsCompatible(exp, scanned[j], tolerance);
        if ok {
          return;
        }
      }
      j := j + 1;
    }
  }

  // Pairs of the first `n` labels with positions they fit, whose IDs are taken.
  ghost predicate PairsFit(m: Matching, fits: seq<set<nat>>, ids: seq<Token>, n: nat)
    requires n <= |fits|
  {
    forall j :: j in m.pairs ==> j < |ids| && m.pairs[j] < n && j in fits[m.pairs[j]] && ids[j] in m.ids
  }

  // A matching pairs positions that fit, and takes the ID of each.
  lemma {:induction false} GreedyFits(fits: seq<set<nat>>, ids: seq<Token>, n: nat)
    requires n <= |fits|
    ensures PairsFit(GreedyNodes(fits, ids, n), fits, ids, n)
  {
    if n > 0 {
      GreedyFits(fits, ids, n - 1);
    }
  }

  // It uses no label twice, and no scanned ID twice.
  lemma {:induction false} GreedyIsOneToOne(fits: seq<set<nat>>, ids: seq<Token>, n: nat)
    requires n <= |fits|
    ensures OneToOne(GreedyNodes(fits, ids, n).pairs)
  {
    if n > 0 {
      GreedyFits(fits, ids, n - 1);
      GreedyIsOneToOne(fits, ids, n - 1);
      StepIsOneToOne(GreedyNodes(fits, ids, n - 1), fits, ids, n - 1);
    }
  }

  lemma StepIsOneToOne(m: Matching, fits: seq<set<nat>>, ids: seq<Token>, e: nat)
    requires e < |fits| && PairsFit(m, fits, ids, e) && OneToOne(m.pairs)
    ensures OneToOne(NodeStep(m, fits[e], ids, e).pairs)
  {
  }

  ghost predicate KeepsIdsApart(m: Matching, ids: seq<Token>) {
    forall i, j :: i in m.pairs && j in m.pairs && i < |ids| && j < |ids| && ids[i] == ids[j] ==> i == j
  }

  lemma {:induction false} GreedyKeepsIdsApart(fits: seq<set<nat>>, ids: seq<Token>, n: nat)
    requires n <= |fits|
    ensures KeepsIdsApart(GreedyNodes(fits, ids, n), ids)
  {
    if n > 0 {
      GreedyFits(fits, ids, n - 1);
      GreedyKeepsIdsApart(fits, ids, n - 1);
      var m := GreedyNodes(fits, ids, n - 1);
      StepKeepsIdsApart(m, fits, ids, n - 1);
      assert GreedyNodes(fits, ids, n) == NodeStep(m, fits[n - 1], ids, n - 1);
    }
  }

  lemma StepKeepsIdsApart(m: Matching, fits: seq<set<nat>>, ids: seq<Token>, e: nat)
    requires e < |fits| && PairsFit(m, fits, ids, e) && KeepsIdsApart(m, ids)
    ensures KeepsIdsApart(NodeStep(m, fits[e], ids, e), ids)
  {
  }

  ghost predicate TakenByPairs(m: Matching, ids: seq<Token>) {
    forall id :: id in m.ids ==> exists j :: j in m.pairs && j < |ids| && ids[j] == id
  }

  // An ID is taken through a paired position.
  lemma {:induction false} GreedyTakes(fits: seq<set<nat>>, ids: seq<Token>, n: nat)
    requires n <= |fits|
    ensures TakenByPairs(GreedyNodes(fits, ids, n), ids)
  {
    if n > 0 {
      GreedyTakes(fits, ids, n - 1);
      StepTakesByPair(GreedyNodes(fits, ids, n - 1), fits[n - 1], ids, n - 1);
    }
  }

  lemma StepTakesByPair(m: Matching, fit: set<nat>, ids: seq<Token>, e: nat)
    requires TakenByPairs(m, ids)
    ensures TakenByPairs(NodeStep(m, fit, ids, e), ids)
  {
    var next := NodeStep(m, fit, ids, e);
    forall id | id in next.ids ensures exists j :: j in next.pairs && j < |ids| && ids[j] == id {
      if id in m.ids {
        var j :| j in m.pairs && j < |ids| && ids[j] == id;
        assert j in next.pairs;
      }
    }
  }

  // As many IDs are taken as positions are paired.
  lemma GreedySize(fits: seq<set<nat>>, ids: seq<Token>, n: nat)
    requires n <= |fits|
    ensures |GreedyNodes(fits, ids, n).ids| == |GreedyNodes(fits, ids, n).pairs.Keys|
  {
    GreedyFits(fits, ids, n);
    GreedyKeepsIdsApart(fits, ids, n);
    GreedyTakes(fits, ids, n);
    TakenSize(GreedyNodes(fits, ids, n), ids);
  }

  lemma TakenSize(m: Matching, ids: seq<Token>)
    requires forall j :: j in m.pairs ==> j < |ids| && ids[j] in m.ids
    requires KeepsIdsApart(m, ids) && TakenByPairs(m, ids)
    ensures |m.ids| == |m.pairs.Keys|
  {
    var idAt := map j | j in m.pairs :: ids[j];
    assert OneToOne(idAt) by {
      forall i, j | i in idAt && j in idAt && idAt[i] == idAt[j] ensures i == j {
        assert ids[i] == ids[j];
      }
    }
    forall id | id in m.ids ensures exists j :: j in idAt && idAt[j] == id {
      var j :| j in m.pairs && j < |ids| && ids[j] == id;
      assert j in idAt;
    }
    BijectionSize(idAt, m.pairs.Keys, m.ids);
  }

  // With distinct scanned IDs, the taken IDs are those of the paired positions.
  lemma {:induction false} TakenIdsArePaired(fits: seq<set<nat>>, ids: seq<Token>, n: nat)
    requires n <= |fits| && Distinct(ids)
    ensures var m := GreedyNodes(fits, ids, n);
            forall j :: 0 <= j < |ids| ==> (ids[j] in m.ids <==> j in m.pairs)
  {
    if n > 0 {
      TakenIdsArePaired(fits, ids, n - 1);
    }
  }

  // It leaves no fitting pair with both the label and the scanned ID free.
  lemma {:induction false} GreedyIsMaximal(fits: seq<set<nat>>, ids: seq<Token>, n: nat, e: nat, j: nat)
    requires e < n <= |fits| && j < |ids| && j in fits[e]
    ensures var m := GreedyNodes(fits, ids, n);
            e in m.pairs.Values || ids[j] in m.ids
  {
    var m := GreedyNodes(fits, ids, n - 1);
    GreedyFits(fits, ids, n - 1);
    StepTakes(m, fits, ids, n - 1);
    if e < n - 1 {
      GreedyIsMaximal(fits, ids, n - 1, e, j);
    }
  }

  // A step only adds, and pairs its label unless every ID it fits is taken.
  lemma StepTakes(m: Matching, fits: seq<set<nat>>, ids: seq<Token>, e: nat)
    requires e < |fits| && PairsFit(m, fits, ids, e)
    ensures var next := NodeStep(m, fits[e], ids, e);
            && m.pairs.Values <= next.pairs.Values && m.ids <= next.ids
            && (e in next.pairs.Values || forall j :: j in fits[e] && j < |ids| ==> ids[j] in m.ids)
  {
    var f := FirstFree(fits[e], ids, m.ids, 0);
    if f < |ids| {
      assert f !in m.pairs;
      NewPair(m.pairs, f, e);
    }
  }

  // A one-to-one choice of compatible pairs, label position to scanned position.
  ghost predicate IsChoice(labels: seq<LabeledNode>, scanned: seq<ScannedNode>, tolerance: nat, other: map<nat, nat>) {
    && (forall e :: e in other ==> e < |labels| && other[e] < |scanned| && Compatible(labels[e], scanned[other[e]], tolerance))
    && (forall e, f :: e in other && f in other && scanned[other[e]].id == scanned[other[f]].id ==> e == f)
  }

  // Any other choice of compatible pairs that uses no label and no scanned ID
  // twice is at most twice as large.
  lemma NodeMatchingIsHalfOptimal(labels: seq<LabeledNode>, scanned: seq<ScannedNode>, tolerance: nat, other: map<nat, nat>)
    requires IsChoice(labels, scanned, tolerance, other)
    ensures |other| <= 2 * |NodeMatching(labels, scanned, tolerance).pairs|
  {
    var fits, ids := FitsOf(labels, scanned, tolerance), ScannedIds(scanned);
    var m := GreedyNodes(fits, ids, |labels|);
    GreedyIsOneToOne(fits, ids, |labels|);
    GreedySize(fits, ids, |labels|);
    var idOf := map e | e in other :: scanned[other[e]].id;
    forall e | e in idOf ensures e in m.pairs.Values || idOf[e] in m.ids {
      GreedyIsMaximal(fits, ids, |labels|, e, other[e]);
    }
    CoveredSize(idOf, m.pairs.Values, m.ids);
    ValuesSize(m.pairs);
    assert idOf.Keys == other.Keys;
  }

  // The node matching pairs compatible nodes only, one to one.
  lemma NodeMatchingIsChoice(labels: seq<LabeledNode>, scanned: seq<ScannedNode>, tolerance: nat)
    ensures var m := NodeMatching(labels, scanned, tolerance);
            && OneToOne(m.pairs)
            && (forall j :: j in m.pairs ==> j < |scanned| && m.pairs[j] < |labels| && Compatible(labels[m.pairs[j]], scanned[j], tolerance))
            && (forall i, j :: i in m.pairs && j in m.pairs && scanned[i].id == scanned[j].id ==> i == j)
  {
    var fits, ids := FitsOf(labels, scanned, tolerance), ScannedIds(scanned);
    GreedyFits(fits, ids, |labels|);
    GreedyIsOneToOne(fits, ids, |labels|);
    GreedyKeepsIdsApart(fits, ids, |labels|);
    var m := GreedyNodes(fits, ids, |labels|);
    forall i, j | i in m.pairs && j in m.pairs && scanned[i].id == scanned[j].id ensures i == j {
      assert ids[i] == ids[j];
    }
  }

  // The bound is met: here a better choice of pairs is twice as large.
  lemma {:induction false} GreedyCanLoseHalf() returns (labels: seq<LabeledNode>, scanned: seq<ScannedNode>, other: map<nat, nat>)
    ensures IsChoice(labels, scanned, 0, other)
    ensures |other| == 2 && |NodeMatching(labels, scanned, 0).pairs| == 1
  {
    var kind, fn, struct := 0, 1, 2;
    labels := [LabeledNode(0, kind, None, None, None, None), LabeledNode(1, kind, None, None, Some(fn), None)];
    scanned := [ScannedNode(10, kind, None, None, None, Some(fn)), ScannedNode(11, kind, None, None, None, Some(struct))];
    other := map[0 := 1, 1 := 0];
    var fits, ids := FitsOf(labels, scanned, 0), ScannedIds(scanned);
    assert ids == [10, 11];
    assert 0 in fits[0] && 1 !in fits[1];
    OneOfTwo(fits, ids);
  }

  // The first label takes what the second one needs.
  lemma {:induction false} OneOfTwo(fits: seq<set<nat>>, ids: seq<Token>)
    requires |fits| == 2 && ids == [10, 11] && 0 in fits[0] && 1 !in fits[1]
    ensures GreedyNodes(fits, ids, 2) == Matching(map[0 := 0], {10})
  {
    assert FirstFree(fits[0], ids, {}, 0) == 0;
    assert GreedyNodes(fits, ids, 1) == Matching(map[0 := 0], {10});
    assert FirstFree(fits[1], ids, {10}, 0) == 2;
  }

  lemma ExpectedOfExists(labels: seq<LabeledNode>, scanned: seq<ScannedNode>, tolerance: nat)
    returns (expectedOf: map<Token, nat>)
    ensures IsExpectedOf(expectedOf, labels, scanned, tolerance)
  {
    var fits, ids := FitsOf(labels, scanned, tolerance), ScannedIds(scanned);
    var m := GreedyNodes(fits, ids, |labels|);
    GreedyFits(fits, ids, |labels|);
    GreedyKeepsIdsApart(fits, ids, |labels|);
    GreedyTakes(fits, ids, |labels|);
    expectedOf := map id | id in m.ids :: m.pairs[PositionOf(m, ids, id)];
  }

  ghost function PositionOf(m: Matching, ids: seq<Token>, id: Token): (j: nat)
    requires TakenByPairs(m, ids) && id in m.ids
    ensures j in m.pairs && j < |ids| && ids[j] == id
  {
    var j :| j in m.pairs && j < |ids| && ids[j] == id;
    j
  }

  // ---------------------------------------------------------------- class counts

  // Members of class `c` among the first `n`; a class is a node kind or an edge label.
  ghost function ClassBelow(classes: seq<Token>, c: Token, n: nat): set<nat>
    requires n <= |classes|
  {
    set e: nat | e < n && classes[e] == c
  }

  ghost function ClassOf(classes: seq<Token>, c: Token): set<nat> {
    ClassBelow(classes, c, |classes|)
  }

  ghost function SpuriousBelow(classes: seq<Token>, ids: seq<Token>, c: Token, matched: set<Token>, n: nat): set<nat>
    requires n <= |classes| == |ids|
  {
    set j: nat | j < n && classes[j] == c && ids[j] !in matched
  }

  // Members whose ID was not matched.
  ghost function SpuriousOf(classes: seq<Token>, ids: seq<Token>, c: Token, matched: set<Token>): set<nat>
    requires |classes| == |ids|
  {
    SpuriousBelow(classes, ids, c, matched, |classes|)
  }

  // Scores one class: matched and unmatched labels, and unmatched scanned members.
  // `labels` and `scanned` are the classes of the two sides, `ids` the scanned IDs.
  method ScoreClass(labels: seq<Token>, scanned: seq<Token>, ids: seq<Token>, c: Token,
                    matchedExpected: set<nat>, matchedActual: set<Token>) returns (metric: Metric)
    requires |scanned| == |ids|
    ensures metric.truePositives == |ClassOf(labels, c) * matchedExpected|
    ensures metric.falseNegatives == |ClassOf(labels, c) - matchedExpected|
    ensures metric.falsePositives == |SpuriousOf(scanned, ids, c, matchedActual)|
  {
    var tp, fn := ScoreLabels(labels, c, matchedExpected);
    var fp := CountSpurious(scanned, ids, c, matchedActual);
    return Metric(tp, fp, fn);
  }

  method ScoreLabels(labels: seq<Token>, c: Token, matched: set<nat>) returns (tp: nat, fn: nat)
    ensures tp == |ClassOf(labels, c) * matched| && fn == |ClassOf(labels, c) - matched|
  {
    tp, fn := 0, 0;
    for e := 0 to |labels|
      invariant tp == |ClassBelow(labels, c, e) * matched|
      invariant fn == |ClassBelow(labels, c, e) - matched|
    {
      ghost var before, after := ClassBelow(labels, c, e), ClassBelow(labels, c, e + 1);
      if labels[e] == c {
        assert after == before + {e};
        OneMember(before, e, matched);
        if e in matched {
          tp := tp + 1;
        } else {
          fn := fn + 1;
        }
      } else {
        assert after == before;
      }
    }
  }

  method CountSpurious(classes: seq<Token>, ids: seq<Token>, c: Token, matched: set<Token>) returns (fp: nat)
    requires |classes| == |ids|
    ensures fp == |SpuriousOf(classes, ids, c, matched)|
  {
    fp := 0;
    for j := 0 to |classes|
      invariant fp == |SpuriousBelow(classes, ids, c, matched, j)|
    {
      ghost var before, after := SpuriousBelow(classes, ids, c, matched, j), SpuriousBelow(classes, ids, c, matched, j + 1);
      if classes[j] == c && ids[j] !in matched {
        assert after == before + {j};
        fp := fp + 1;
      } else {
        assert after == before;
      }
    }
  }

  lemma OneMember(s: set<nat>, e: nat, matched: set<nat>)
    requires e !in s
    ensures |(s + {e}) * matched| == |s * matched| + if e in matched then 1 else 0
    ensures |(s + {e}) - matched| == |s - matched| + if e in matched then 0 else 1
  {
    if e in matched {
      assert (s + {e}) * matched == s * matched + {e} && (s + {e}) - matched == s - matched;
    } else {
      assert (s + {e}) * matched == s * matched && (s + {e}) - matched == (s - matched) + {e};
    }
  }

  // Conservation, for one class and any one-to-one pairing of scanned with
  // labelled members that keeps classes: matched and missed labels add up to the
  // labels; and matched labels, spurious and hidden members to the scanned members.
  lemma ClassCountsAreConserved(labels: seq<Token>, scanned: seq<Token>, ids: seq<Token>, c: Token,
                                pairs: map<nat, nat>, matched: set<Token>)
    requires |scanned| == |ids| && OneToOne(pairs)
    requires forall j :: j in pairs ==> j < |scanned| && pairs[j] < |labels| && scanned[j] == labels[pairs[j]]
    ensures |ClassOf(labels, c) * pairs.Values| + |ClassOf(labels, c) - pairs.Values| == |ClassOf(labels, c)|
    ensures (forall j :: j in pairs ==> ids[j] in matched) ==>
              |ClassOf(labels, c) * pairs.Values| + |SpuriousOf(scanned, ids, c, matched)|
              + |HiddenOf(scanned, ids, c, pairs.Keys, matched)| == |ClassOf(scanned, c)|
  {
    var mine, all := ClassOf(labels, c), ClassOf(scanned, c);
    MeetAndRest(mine, pairs.Values);
    MeetAndRest(all, pairs.Keys);
    PairedAgree(pairs, all, mine);
    if forall j :: j in pairs ==> ids[j] in matched {
      UnpairedSplit(scanned, ids, c, pairs.Keys, matched);
    }
  }

  // Members that are not paired although their ID was matched: through another member.
  ghost function HiddenOf(classes: seq<Token>, ids: seq<Token>, c: Token, paired: set<nat>, matched: set<Token>): set<nat>
    requires |classes| == |ids|
  {
    set j: nat | j < |classes| && classes[j] == c && j !in paired && ids[j] in matched
  }

  lemma UnpairedSplit(scanned: seq<Token>, ids: seq<Token>, c: Token, paired: set<nat>, matched: set<Token>)
    requires |scanned| == |ids|
    requires forall j :: j in paired ==> j < |ids| && ids[j] in matched
    ensures |SpuriousOf(scanned, ids, c, matched)| + |HiddenOf(scanned, ids, c, paired, matched)|
         == |ClassOf(scanned, c) - paired|
  {
    var rest := ClassOf(scanned, c) - paired;
    SplitSize(rest, HiddenOf(scanned, ids, c, paired, matched));
    assert rest - HiddenOf(scanned, ids, c, paired, matched) == SpuriousOf(scanned, ids, c, matched);
  }

  lemma MeetAndRest(s: set<nat>, t: set<nat>)
    ensures |s * t| + |s - t| == |s|
  {
    SplitSize(s, s * t);
    assert s - s * t == s - t;
  }

  function LabelKinds(labels: seq<LabeledNode>): seq<Token> {
    seq(|labels|, i requires 0 <= i < |labels| => labels[i].kind)
  }

  function ScannedKinds(scanned: seq<ScannedNode>): seq<Token> {
    seq(|scanned|, i requires 0 <= i < |scanned| => scanned[i].kind)
  }

  // The true and false positives of a kind add up to the scanned nodes of the kind.
  ghost predicate NodesAddUp(labels: seq<LabeledNode>, scanned: seq<ScannedNode>, tolerance: nat, kind: Token) {
    var m := NodeMatching(labels, scanned, tolerance);
    |ClassOf(LabelKinds(labels), kind) * m.pairs.Values|
    + |SpuriousOf(ScannedKinds(scanned), ScannedIds(scanned), kind, m.ids)|
    == |ClassOf(ScannedKinds(scanned), kind)|
  }

  // The counts the node loop reports for a kind add up to what was labelled; and to
  // what was scanned exactly when no scanned node of the kind is hidden by another one
  // with its ID.
  lemma NodeCountsAreConserved(labels: seq<LabeledNode>, scanned: seq<ScannedNode>, tolerance: nat, kind: Token)
    ensures var m := NodeMatching(labels, scanned, tolerance);
            var mine := ClassOf(LabelKinds(labels), kind);
            && |mine * m.pairs.Values| + |mine - m.pairs.Values| == |mine|
            && (NodesAddUp(labels, scanned, tolerance, kind) <==>
                  HiddenOf(ScannedKinds(scanned), ScannedIds(scanned), kind, m.pairs.Keys, m.ids) == {})
  {
    var m := NodeMatching(labels, scanned, tolerance);
    NodeMatchingIsChoice(labels, scanned, tolerance);
    GreedyFits(FitsOf(labels, scanned, tolerance), ScannedIds(scanned), |labels|);
    ClassCountsAreConserved(LabelKinds(labels), ScannedKinds(scanned), ScannedIds(scanned), kind, m.pairs, m.ids);
  }

  // Whatever the labels, the counts add up: that is so exactly when no scanned ID is repeated.
  lemma NodeCountsNeedDistinctIds(scanned: seq<ScannedNode>, tolerance: nat)
    ensures Distinct(ScannedIds(scanned)) <==>
            forall labels, kind :: NodesAddUp(labels, scanned, tolerance, kind)
  {
    var ids := ScannedIds(scanned);
    if Distinct(ids) {
      forall labels, kind ensures NodesAddUp(labels, scanned, tolerance, kind) {
        TakenIdsArePaired(FitsOf(labels, scanned, tolerance), ids, |labels|);
        NodeCountsAreConserved(labels, scanned, tolerance, kind);
      }
    } else {
      var i, j :| 0 <= i < |ids| && 0 <= j < |ids| && ids[i] == ids[j] && i != j;
      RepeatedIdHides(scanned, tolerance, i, j);
    }
  }

  // A label that only the kind, the path and the name of a node constrain.
  function LabelFor(node: ScannedNode): LabeledNode {
    LabeledNode(0, node.kind, node.name, node.path, None, None)
  }

  lemma LabelFits(node: ScannedNode, tolerance: nat)
    ensures Compatible(LabelFor(node), node, tolerance)
  {
    if node.path.Some? { EqualNormalizedMeans(node.path.value, node.path.value); }
  }

  function Copies<T>(x: T, n: nat): seq<T> {
    seq(n, _ => x)
  }

  // With as many such labels as scanned nodes, the ID of the node is taken.
  lemma CopiesTakeId(scanned: seq<ScannedNode>, tolerance: nat, i: nat)
    requires i < |scanned|
    ensures scanned[i].id in NodeMatching(Copies(LabelFor(scanned[i]), |scanned|), scanned, tolerance).ids
  {
    var n, labels := |scanned|, Copies(LabelFor(scanned[i]), |scanned|);
    var fits, ids := FitsOf(labels, scanned, tolerance), ScannedIds(scanned);
    var m := GreedyNodes(fits, ids, n);
    GreedyFits(fits, ids, n);
    assert i in Below(n);
    if ids[i] !in m.ids {
      forall e | e in Below(n) ensures e in m.pairs.Values {
        LabelFits(scanned[i], tolerance);
        GreedyIsMaximal(fits, ids, n, e, i);
      }
      GreedyIsOneToOne(fits, ids, n);
      AllPaired(m.pairs, n);
    }
  }

  // Two nodes under one ID: labels exist for which one of them hides the other.
  lemma RepeatedIdHides(scanned: seq<ScannedNode>, tolerance: nat, i: nat, j: nat)
    requires i < |scanned| && j < |scanned| && i != j && scanned[i].id == scanned[j].id
    ensures exists labels, kind :: !NodesAddUp(labels, scanned, tolerance, kind)
  {
    var labels := Copies(LabelFor(scanned[i]), |scanned|);
    var m := NodeMatching(labels, scanned, tolerance);
    CopiesTakeId(scanned, tolerance, i);
    NodeMatchingIsChoice(labels, scanned, tolerance);
    var k := if i in m.pairs then j else i;
    var kind := scanned[k].kind;
    assert k in HiddenOf(ScannedKinds(scanned), ScannedIds(scanned), kind, m.pairs.Keys, m.ids);
    NodeCountsAreConserved(labels, scanned, tolerance, kind);
  }

  // One ID scanned twice is matched once and counted twice.
  lemma RepeatedIdBreaksCounts() returns (labels: seq<LabeledNode>, scanned: seq<ScannedNode>)
    ensures var m := NodeMatching(labels, scanned, 0);
            |ClassOf(LabelKinds(labels), 0) * m.pairs.Values|
            + |SpuriousOf(ScannedKinds(scanned), ScannedIds(scanned), 0, m.ids)|
            < |ClassOf(ScannedKinds(scanned), 0)|
  {
    labels := [LabeledNode(0, 0, None, None, None, None)];
    var node := ScannedNode(10, 0, None, None, None, None);
    scanned := [node, node];
    RepeatedIdMatching(labels, scanned);
    var m := Matching(map[0 := 0], {10});
    assert m.pairs.Values == {0} by { assert m.pairs[0] == 0; }
    assert ClassOf(LabelKinds(labels), 0) == {0};
    assert SpuriousOf(ScannedKinds(scanned), ScannedIds(scanned), 0, m.ids) == {};
    assert ClassOf(ScannedKinds(scanned), 0) == {0, 1};
  }

  lemma RepeatedIdMatching(labels: seq<LabeledNode>, scanned: seq<ScannedNode>)
    requires |labels| == 1 && |scanned| == 2 && scanned[0].id == scanned[1].id == 10
    requires Compatible(labels[0], scanned[0], 0)
    ensures NodeMatching(labels, scanned, 0) == Matching(map[0 := 0], {10})
  {
    var fits, ids := FitsOf(labels, scanned, 0), ScannedIds(scanned);
    assert ids == [10, 10] && 0 in fits[0];
    assert FirstFree(fits[0], ids, {}, 0) == 0;
    assert GreedyNodes(fits, ids, 1) == Matching(map[0 := 0], {10});
  }
}
