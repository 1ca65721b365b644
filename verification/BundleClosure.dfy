/**
 The closure of an evidence bundle (src/bundle.rs): a breadth-first search from
 the selected roots over the undirected links of every version of every record.
 */
module BundleClosure {
  import opened BundleRecords
  import opened Counting
  import opened Listing

  // ---------------------------------------------------------------- the graph

  ghost predicate HasId(records: seq<Record>, id: Id) {
    exists i :: 0 <= i < |records| && records[i].id == id
  }

  // The last version of an ID, which the index by ID keeps.
  ghost predicate IsLastVersion(records: seq<Record>, r: Record) {
    exists i :: 0 <= i < |records| && records[i] == r && forall j :: i < j < |records| ==> records[j].id != r.id
  }

  // A record with ID `u` links to `v`.
  ghost predicate LinksTo(records: seq<Record>, u: Id, v: Id, relation: Relation) {
    exists i :: 0 <= i < |records| && records[i].id == u && Link(v, relation) in LinksOf(records[i])
  }

  ghost predicate Adjacent(records: seq<Record>, u: Id, v: Id, relation: Relation) {
    LinksTo(records, u, v, relation) || LinksTo(records, v, u, relation)
  }

  ghost predicate Connected(records: seq<Record>, u: Id, v: Id) {
    exists relation :: Adjacent(records, u, v, relation)
  }

  // A walk over links through existing records, from a root to `v`.
  ghost predicate IsWalk(records: seq<Record>, roots: set<Id>, walk: seq<Id>, v: Id) {
    && walk != [] && walk[0] in roots && walk[|walk| - 1] == v
    && (forall i :: 0 <= i < |walk| ==> HasId(records, walk[i]))
    && (forall i :: 0 <= i < |walk| - 1 ==> Connected(records, walk[i], walk[i + 1]))
  }

  ghost predicate Reachable(records: seq<Record>, roots: set<Id>, v: Id) {
    exists walk :: IsWalk(records, roots, walk, v)
  }

  lemma ReachableStep(records: seq<Record>, roots: set<Id>, u: Id, v: Id)
    requires Reachable(records, roots, u) && Connected(records, u, v) && HasId(records, v)
    ensures Reachable(records, roots, v)
  {
    var walk :| IsWalk(records, roots, walk, u);
    assert IsWalk(records, roots, walk + [v], v);
  }

  // A set that holds the roots and is closed under links holds all that is reachable.
  lemma ClosedHoldsReachable(records: seq<Record>, roots: set<Id>, s: set<Id>, walk: seq<Id>, v: Id)
    requires forall u :: u in roots && HasId(records, u) ==> u in s
    requires forall u, w :: u in s && Connected(records, u, w) && HasId(records, w) ==> w in s
    requires IsWalk(records, roots, walk, v)
    ensures v in s
    decreases |walk|
  {
    if |walk| > 1 {
      var u := walk[|walk| - 2];
      ClosedHoldsReachable(records, roots, s, walk[..|walk| - 1], u);
    }
  }

  // ---------------------------------------------------------------- the code

  type Adjacency = map<Id, seq<Link>>

  function Neighbours(adj: Adjacency, u: Id): seq<Link> {
    if u in adj then adj[u] else []
  }

  function Push(adj: Adjacency, u: Id, l: Link): Adjacency {
    adj[u := Neighbours(adj, u) + [l]]
  }

  ghost predicate Indexes(byId: map<Id, Record>, records: seq<Record>) {
    && (forall id :: id in byId <==> HasId(records, id))
    && (forall id :: id in byId ==> byId[id].id == id && IsLastVersion(records, byId[id]))
  }

  method IndexById(records: seq<Record>) returns (byId: map<Id, Record>)
    ensures Indexes(byId, records)
  {
    byId := map[];
    for i := 0 to |records|
      invariant forall id :: id in byId <==> HasId(records[..i], id)
      invariant forall id :: id in byId ==> byId[id].id == id && IsLastVersion(records[..i], byId[id])
    {
      ghost var before := byId;
      byId := byId[records[i].id := records[i]];
      assert records[..i + 1] == records[..i] + [records[i]];
      forall id ensures id in byId <==> HasId(records[..i + 1], id) {
        HasIdAppend(records[..i], records[i], id);
      }
      forall id | id in byId ensures IsLastVersion(records[..i + 1], byId[id]) {
        LastVersionAppend(records[..i], records[i], byId[id]);
      }
    }
    assert records[..|records|] == records;
  }

  lemma HasIdAppend(records: seq<Record>, r: Record, id: Id)
    ensures HasId(records + [r], id) <==> HasId(records, id) || r.id == id
  {
    var t := records + [r];
    if HasId(records, id) {
      var i :| 0 <= i < |records| && records[i].id == id;
      assert t[i].id == id;
    }
    if r.id == id { assert t[|records|].id == id; }
  }

  lemma LastVersionAppend(records: seq<Record>, r: Record, x: Record)
    requires x == r || (IsLastVersion(records, x) && x.id != r.id)
    ensures IsLastVersion(records + [r], x)
  {
    var t := records + [r];
    if x == r {
      assert t[|records|] == x;
    } else {
      var i :| 0 <= i < |records| && records[i] == x && forall j :: i < j < |records| ==> records[j].id != x.id;
      assert t[i] == x;
    }
  }

  // `x` is a neighbour of `u` through a link of a record `id`, in either direction.
  ghost predicate Gives(id: Id, links: seq<Link>, u: Id, x: Link) {
    (u == id && x in links) || (x.to == id && Link(u, x.relation) in links)
  }

  // `adj` is `before` with the links of one record, both ways.
  ghost predicate AddsLinks(before: Adjacency, adj: Adjacency, id: Id, links: seq<Link>) {
    forall u, x :: x in Neighbours(adj, u) <==> x in Neighbours(before, u) || Gives(id, links, u, x)
  }

  // `adj` lists exactly the undirected links of the records.
  ghost predicate Mirrors(adj: Adjacency, records: seq<Record>) {
    forall u, x: Link :: x in Neighbours(adj, u) <==> Adjacent(records, u, x.to, x.relation)
  }

  method AddRecord(adj0: Adjacency, r: Record) returns (adj: Adjacency)
    ensures AddsLinks(adj0, adj, r.id, LinksOf(r))
  {
    match r
    case Edge(id, source, target, tag, _) =>
      adj := AddEdge(adj0, id, source, target, Named(tag));
    case _ =>
      adj := AddReferences(adj0, r.id, LinksOf(r));
  }

  method AddEdge(adj0: Adjacency, id: Id, source: Id, target: Id, relation: Relation) returns (adj: Adjacency)
    ensures AddsLinks(adj0, adj, id, [Link(source, relation), Link(target, relation)])
  {
    var a1 := Push(adj0, id, Link(source, relation));
    var a2 := Push(a1, id, Link(target, relation));
    var a3 := Push(a2, source, Link(id, relation));
    adj := Push(a3, target, Link(id, relation));
    PushAdds(adj0, id, Link(source, relation));
    PushAdds(a1, id, Link(target, relation));
    PushAdds(a2, source, Link(id, relation));
    PushAdds(a3, target, Link(id, relation));
    FourPushes(adj0, a1, a2, a3, adj, id, source, target, relation);
  }

  ghost predicate Adds(before: Adjacency, adj: Adjacency, u: Id, l: Link) {
    forall w, x :: x in Neighbours(adj, w) <==> x in Neighbours(before, w) || (w == u && x == l)
  }

  lemma PushAdds(adj: Adjacency, u: Id, l: Link)
    ensures Adds(adj, Push(adj, u, l), u, l)
  {
  }

  lemma FourPushes(a0: Adjacency, a1: Adjacency, a2: Adjacency, a3: Adjacency, a4: Adjacency,
                   id: Id, source: Id, target: Id, relation: Relation)
    requires Adds(a0, a1, id, Link(source, relation)) && Adds(a1, a2, id, Link(target, relation))
    requires Adds(a2, a3, source, Link(id, relation)) && Adds(a3, a4, target, Link(id, relation))
    ensures AddsLinks(a0, a4, id, [Link(source, relation), Link(target, relation)])
  {
  }

  method AddReferences(adj0: Adjacency, id: Id, links: seq<Link>) returns (adj: Adjacency)
    ensures AddsLinks(adj0, adj, id, links)
  {
    adj := adj0;
    for k := 0 to |links|
      invariant AddsLinks(adj0, adj, id, links[..k])
    {
      ghost var before := adj;
      adj := Push(adj, id, links[k]);
      adj := Push(adj, links[k].to, Link(id, links[k].relation));
      TwoPushes(before, id, links[k]);
      LinksGrow(adj0, before, adj, id, links[..k], links[k]);
      assert links[..k + 1] == links[..k] + [links[k]];
    }
    assert links[..|links|] == links;
  }

  lemma TwoPushes(adj: Adjacency, id: Id, l: Link)
    ensures AddsLinks(adj, Push(Push(adj, id, l), l.to, Link(id, l.relation)), id, [l])
  {
  }

  lemma LinksGrow(adj0: Adjacency, before: Adjacency, adj: Adjacency, id: Id, links: seq<Link>, l: Link)
    requires AddsLinks(adj0, before, id, links) && AddsLinks(before, adj, id, [l])
    ensures AddsLinks(adj0, adj, id, links + [l])
  {
  }

  method BuildAdjacency(records: seq<Record>) returns (adj: Adjacency)
    ensures Mirrors(adj, records)
  {
    adj := map[];
    for i := 0 to |records|
      invariant Mirrors(adj, records[..i])
    {
      ghost var before := adj;
      adj := AddRecord(adj, records[i]);
      MirrorsGrow(records[..i], records[i], before, adj);
      assert records[..i + 1] == records[..i] + [records[i]];
    }
    assert records[..|records|] == records;
  }

  lemma MirrorsGrow(records: seq<Record>, r: Record, before: Adjacency, adj: Adjacency)
    requires Mirrors(before, records) && AddsLinks(before, adj, r.id, LinksOf(r))
    ensures Mirrors(adj, records + [r])
  {
    forall u, x: Link ensures x in Neighbours(adj, u) <==> Adjacent(records + [r], u, x.to, x.relation) {
      LinksToAppend(records, r, u, x.to, x.relation);
      LinksToAppend(records, r, x.to, u, x.relation);
    }
  }

  lemma {:induction false} LinksToAppend(records: seq<Record>, r: Record, u: Id, v: Id, relation: Relation)
    ensures LinksTo(records + [r], u, v, relation) <==>
            LinksTo(records, u, v, relation) || (r.id == u && Link(v, relation) in LinksOf(r))
  {
    var t := records + [r];
    assert t[|records|] == r && forall i :: 0 <= i < |records| ==> t[i] == records[i];
    if LinksTo(records, u, v, relation) {
      var i :| 0 <= i < |records| && records[i].id == u && Link(v, relation) in LinksOf(records[i]);
      assert t[i].id == u && Link(v, relation) in LinksOf(t[i]);
    }
    if LinksTo(t, u, v, relation) {
      var i :| 0 <= i < |t| && t[i].id == u && Link(v, relation) in LinksOf(t[i]);
      assert i < |records| ==> records[i].id == u && Link(v, relation) in LinksOf(records[i]);
    }
  }

  // ---------------------------------------------------------------- the search

  datatype Unresolved = Unresolved(source: Id, target: Id, relation: Relation)

  function Ids(records: seq<Record>): (ids: seq<Id>)
    ensures |ids| == |records| && forall i :: 0 <= i < |records| ==> ids[i] == records[i].id
  {
    seq(|records|, i requires 0 <= i < |records| => records[i].id)
  }

  ghost function Elements(ids: seq<Id>): (s: set<Id>)
    ensures forall id :: id in s <==> id in ids
  {
    set id | id in ids
  }

  ghost function ReachableIds(records: seq<Record>, roots: set<Id>): (s: set<Id>)
    ensures forall v :: v in s <==> Reachable(records, roots, v)
  {
    var s := set i | 0 <= i < |records| && Reachable(records, roots, records[i].id) :: records[i].id;
    assert forall v :: Reachable(records, roots, v) ==> HasId(records, v) by {
      forall v | Reachable(records, roots, v) ensures HasId(records, v) {
        var walk :| IsWalk(records, roots, walk, v);
      }
    }
    s
  }

  // The test for a link leading out of `r` (552-556).
  predicate IsOutgoing(r: Record, v: Id) {
    match r
    case Edge(_, source, target, _, _) => source == v || target == v
    case Node(_, _, _, _, _, _, _) => v in CollectReferences(r)
    case Tombstone(_, deletedId) => deletedId == v
  }

  // `x` is a reference of `r` to an ID no record has, under a label some version of `r` gives it.
  ghost predicate Dangles(records: seq<Record>, r: Record, x: Unresolved) {
    && x.source == r.id && !HasId(records, x.target) && x.target in CollectReferences(r)
    && LinksTo(records, x.source, x.target, x.relation)
  }

  ghost function Heads(links: seq<Link>): set<Id> {
    if links == [] then {} else Heads(links[..|links| - 1]) + {links[|links| - 1].to}
  }

  lemma InHeads(links: seq<Link>, v: Id)
    ensures v in Heads(links) <==> exists x :: x in links && x.to == v
  {
  }

  // What one pass over the neighbours of `r` notes as unresolved.
  ghost function Noted(r: Record, present: set<Id>, links: seq<Link>): seq<Unresolved> {
    if links == [] then []
    else
      var front, last := Noted(r, present, links[..|links| - 1]), links[|links| - 1];
      if last.to !in present && IsOutgoing(r, last.to) then front + [Unresolved(r.id, last.to, last.relation)] else front
  }

  lemma InNoted(r: Record, present: set<Id>, links: seq<Link>, x: Unresolved)
    ensures x in Noted(r, present, links) <==>
      x.source == r.id && x.target !in present && Link(x.target, x.relation) in links && IsOutgoing(r, x.target)
  {
    if links != [] {
      var front, last := links[..|links| - 1], links[|links| - 1];
      InNoted(r, present, front, x);
      assert links == front + [last];
    }
  }

  // One neighbour list: new IDs are queued, dangling references noted.
  method Expand(rec: Record, neighbours: seq<Link>, byId: map<Id, Record>,
                visited0: set<Id>, queue0: seq<Id>, unresolved0: seq<Unresolved>)
    returns (visited: set<Id>, queue: seq<Id>, unresolved: seq<Unresolved>)
    ensures visited == visited0 + Heads(neighbours) * byId.Keys
    ensures queue0 <= queue && Enumerates(queue[|queue0|..], visited - visited0)
    ensures unresolved == unresolved0 + Noted(rec, byId.Keys, neighbours)
  {
    visited, queue, unresolved := visited0, queue0, unresolved0;
    ghost var added: seq<Id> := [];
    for k := 0 to |neighbours|
      invariant visited == visited0 + Heads(neighbours[..k]) * byId.Keys
      invariant queue == queue0 + added && Enumerates(added, visited - visited0)
      invariant unresolved == unresolved0 + Noted(rec, byId.Keys, neighbours[..k])
    {
      var v := neighbours[k].to;
      assert neighbours[..k + 1][..k] == neighbours[..k];
      if v in byId {
        if v !in visited {
          EnumerateOne(added, visited0, visited, v);
          visited, queue, added := visited + {v}, queue + [v], added + [v];
        }
      } else if IsOutgoing(rec, v) {
        unresolved := unresolved + [Unresolved(rec.id, v, neighbours[k].relation)];
      }
    }
    assert neighbours[..|neighbours|] == neighbours;
    assert queue[|queue0|..] == added;
  }

  lemma EnumerateOne(added: seq<Id>, base: set<Id>, visited: set<Id>, v: Id)
    requires Enumerates(added, visited - base) && v !in visited && base <= visited
    ensures Enumerates(added + [v], visited + {v} - base)
  {
    forall i, j | 0 <= i < j < |added| + 1 ensures (added + [v])[i] != (added + [v])[j] {
      assert (added + [v])[i] in added;
    }
  }

  // The present neighbours of `u` are what is connected to it.
  lemma HeadsAreConnected(records: seq<Record>, adj: Adjacency, u: Id, v: Id)
    requires Mirrors(adj, records)
    ensures v in Heads(Neighbours(adj, u)) <==> Connected(records, u, v)
  {
    var links := Neighbours(adj, u);
    InHeads(links, v);
    if v in Heads(links) {
      var x :| x in links && x.to == v;
      assert Adjacent(records, u, v, x.relation);
    }
    if Connected(records, u, v) {
      var relation :| Adjacent(records, u, v, relation);
      assert Link(v, relation) in links;
    }
  }

  // What is noted for an included record is what it refers to and no record has.
  lemma NotedDangles(records: seq<Record>, adj: Adjacency, r: Record, present: set<Id>, x: Unresolved)
    requires Mirrors(adj, records) && forall id :: id in present <==> HasId(records, id)
    ensures x in Noted(r, present, Neighbours(adj, r.id)) <==> Dangles(records, r, x)
  {
    InNoted(r, present, Neighbours(adj, r.id), x);
    if x.source == r.id {
      assert Link(x.target, x.relation) in Neighbours(adj, r.id) <==> Adjacent(records, r.id, x.target, x.relation);
    }
  }

  // Every present ID connected to one of `ids` has been seen.
  ghost predicate Explored(records: seq<Record>, ids: seq<Id>, visited: set<Id>) {
    forall u, w :: u in ids && Connected(records, u, w) && HasId(records, w) ==> w in visited
  }

  // The list of unresolved links is exactly what the included records leave dangling.
  ghost predicate NotesDangling(records: seq<Record>, included: seq<Record>, unresolved: seq<Unresolved>) {
    forall x :: x in unresolved <==> exists r :: r in included && Dangles(records, r, x)
  }

  lemma ExploreOne(records: seq<Record>, adj: Adjacency, roots: set<Id>, included: seq<Record>, r: Record,
                   present: set<Id>, visited: set<Id>, visited1: set<Id>)
    requires Mirrors(adj, records) && forall id :: id in present <==> HasId(records, id)
    requires visited1 == visited + Heads(Neighbours(adj, r.id)) * present
    requires r.id in visited && forall v :: v in visited ==> Reachable(records, roots, v)
    requires Explored(records, Ids(included), visited)
    ensures Explored(records, Ids(included + [r]), visited1)
    ensures forall v :: v in visited1 ==> Reachable(records, roots, v)
  {
    forall v ensures v in Heads(Neighbours(adj, r.id)) <==> Connected(records, r.id, v) {
      HeadsAreConnected(records, adj, r.id, v);
    }
    forall v | v in visited1 ensures Reachable(records, roots, v) {
      if v !in visited { ReachableStep(records, roots, r.id, v); }
    }
    assert Ids(included + [r]) == Ids(included) + [r.id];
  }

  lemma NoteOne(records: seq<Record>, adj: Adjacency, included: seq<Record>, r: Record,
                present: set<Id>, unresolved: seq<Unresolved>)
    requires Mirrors(adj, records) && forall id :: id in present <==> HasId(records, id)
    requires NotesDangling(records, included, unresolved)
    ensures NotesDangling(records, included + [r], unresolved + Noted(r, present, Neighbours(adj, r.id)))
  {
    var included1, unresolved1 := included + [r], unresolved + Noted(r, present, Neighbours(adj, r.id));
    forall x ensures x in unresolved1 <==> exists q :: q in included1 && Dangles(records, q, x) {
      NotedDangles(records, adj, r, present, x);
      if x in unresolved {
        var q :| q in included && Dangles(records, q, x);
        assert q in included1;
      } else if Dangles(records, r, x) {
        assert r in included1;
      }
    }
  }

  lemma ExploredAll(records: seq<Record>, roots: set<Id>, ids: seq<Id>, visited: set<Id>)
    requires roots <= visited && (forall v :: v in visited ==> Reachable(records, roots, v))
    requires Explored(records, ids, visited) && forall v :: v in visited ==> v in ids
    ensures visited == ReachableIds(records, roots)
  {
    forall v | Reachable(records, roots, v) ensures v in visited {
      var walk :| IsWalk(records, roots, walk, v);
      ClosedHoldsReachable(records, roots, visited, walk, v);
    }
  }

  // The IDs of the bundle are the roots, as they are listed, then every other reachable
  // ID once; each record is the last version of its ID; what is unresolved is exactly
  // what the included records refer to and no record has.
  method Traverse(records: seq<Record>, roots: seq<Id>) returns (included: seq<Record>, unresolved: seq<Unresolved>)
    requires forall id :: id in roots ==> HasId(records, id)
    ensures forall r :: r in included ==> IsLastVersion(records, r)
    ensures roots <= Ids(included)
    ensures Enumerates(Ids(included)[|roots|..], ReachableIds(records, Elements(roots)) - Elements(roots))
    ensures NotesDangling(records, included, unresolved)
  {
    var byId := IndexById(records);
    var adj := BuildAdjacency(records);
    var visited := set id | id in roots;
    var queue := roots;
    ghost var added: seq<Id> := [];
    included, unresolved := [], [];
    SearchStart(records, roots, byId.Keys, visited);
    while queue != []
      invariant SearchInv(records, roots, byId.Keys, included, queue, visited, added)
      invariant NotesDangling(records, included, unresolved)
      decreases Unseen(byId.Keys, visited), |queue|
    {
      included, queue, visited, unresolved, added :=
        Visit(records, roots, byId, adj, included, queue, visited, unresolved, added);
    }
    SearchDone(records, roots, byId.Keys, included, visited, added);
  }

  // One round: the head of the queue is included and its neighbours are looked at.
  method Visit(ghost records: seq<Record>, ghost roots: seq<Id>, byId: map<Id, Record>, adj: Adjacency,
               included0: seq<Record>, queue0: seq<Id>, visited0: set<Id>, unresolved0: seq<Unresolved>,
               ghost added0: seq<Id>)
    returns (included: seq<Record>, queue: seq<Id>, visited: set<Id>, unresolved: seq<Unresolved>, ghost added: seq<Id>)
    requires Indexes(byId, records) && Mirrors(adj, records)
    requires SearchInv(records, roots, byId.Keys, included0, queue0, visited0, added0)
    requires NotesDangling(records, included0, unresolved0)
    requires queue0 != []
    ensures SearchInv(records, roots, byId.Keys, included, queue, visited, added)
    ensures NotesDangling(records, included, unresolved)
    ensures Unseen(byId.Keys, visited) < Unseen(byId.Keys, visited0)
         || (Unseen(byId.Keys, visited) == Unseen(byId.Keys, visited0) && |queue| < |queue0|)
  {
    Pending(Ids(included0), queue0, roots, added0, visited0);
    var rec := byId[queue0[0]];
    included := included0 + [rec];
    visited, queue, unresolved := Expand(rec, Neighbours(adj, rec.id), byId, visited0, queue0[1..], unresolved0);
    NoteOne(records, adj, included0, rec, byId.Keys, unresolved0);
    added := added0 + queue[|queue0| - 1..];
    SearchStep(records, adj, roots, byId.Keys, included0, rec, queue0, queue, visited0, visited, added0);
  }

  // The search so far: `included` then `queue` are the roots and what was found since.
  ghost predicate SearchInv(records: seq<Record>, roots: seq<Id>, present: set<Id>, included: seq<Record>,
                            queue: seq<Id>, visited: set<Id>, added: seq<Id>) {
    && Elements(roots) <= visited <= present
    && (forall v :: v in visited ==> Reachable(records, Elements(roots), v))
    && Ids(included) + queue == roots + added && Enumerates(added, visited - Elements(roots))
    && Explored(records, Ids(included), visited)
    && (forall r :: r in included ==> IsLastVersion(records, r))
  }

  ghost function Unseen(present: set<Id>, visited: set<Id>): nat {
    |present - visited|
  }

  lemma SeenGrows(present: set<Id>, visited: set<Id>, visited1: set<Id>)
    requires visited <= visited1 <= present
    ensures visited == visited1 || Unseen(present, visited1) < Unseen(present, visited)
  {
    if visited != visited1 {
      var v :| v in visited1 && v !in visited;
      SubsetSize(present - visited1, present - visited - {v});
    }
  }

  lemma SearchStep(records: seq<Record>, adj: Adjacency, roots: seq<Id>, present: set<Id>, included: seq<Record>,
                   r: Record, queue: seq<Id>, queue1: seq<Id>, visited: set<Id>, visited1: set<Id>, added: seq<Id>)
    requires Mirrors(adj, records) && forall id :: id in present <==> HasId(records, id)
    requires SearchInv(records, roots, present, included, queue, visited, added)
    requires queue != [] && queue[0] == r.id && r.id in visited && IsLastVersion(records, r)
    requires visited1 == visited + Heads(Neighbours(adj, r.id)) * present
    requires queue[1..] <= queue1 && Enumerates(queue1[|queue| - 1..], visited1 - visited)
    ensures SearchInv(records, roots, present, included + [r], queue1, visited1, added + queue1[|queue| - 1..])
    ensures Unseen(present, visited1) < Unseen(present, visited)
         || (Unseen(present, visited1) == Unseen(present, visited) && |queue1| < |queue|)
  {
    SeenGrows(present, visited, visited1);
    var more := queue1[|queue| - 1..];
    ExploreOne(records, adj, Elements(roots), included, r, present, visited, visited1);
    assert Ids(included + [r]) == Ids(included) + [r.id];
    Requeued(Ids(included), queue, queue1, r.id, roots, added, more);
    EnumerateMore(added, more, Elements(roots), visited, visited1);
  }

  lemma SearchDone(records: seq<Record>, roots: seq<Id>, present: set<Id>, included: seq<Record>,
                   visited: set<Id>, added: seq<Id>)
    requires SearchInv(records, roots, present, included, [], visited, added)
    ensures roots <= Ids(included)
    ensures Enumerates(Ids(included)[|roots|..], ReachableIds(records, Elements(roots)) - Elements(roots))
  {
    assert Ids(included) == Ids(included) + [] == roots + added;
    forall v | v in visited ensures v in Ids(included) { Listed(roots, added, visited, v); }
    ExploredAll(records, Elements(roots), Ids(included), visited);
    assert Ids(included)[|roots|..] == added;
  }

  lemma SearchStart(records: seq<Record>, roots: seq<Id>, present: set<Id>, visited: set<Id>)
    requires forall v :: v in roots ==> HasId(records, v)
    requires forall id :: id in present <==> HasId(records, id)
    requires visited == Elements(roots)
    ensures SearchInv(records, roots, present, [], roots, visited, [])
    ensures NotesDangling(records, [], [])
  {
    forall v | v in roots ensures Reachable(records, visited, v) {
      assert IsWalk(records, visited, [v], v);
    }
    assert Ids([]) + roots == roots + [];
  }

  // What waits in the queue has been seen.
  lemma Pending(ids: seq<Id>, queue: seq<Id>, roots: seq<Id>, added: seq<Id>, visited: set<Id>)
    requires ids + queue == roots + added && queue != []
    requires Elements(roots) <= visited && Enumerates(added, visited - Elements(roots))
    ensures queue[0] in visited
  {
    assert (ids + queue)[|ids|] == queue[0];
    assert queue[0] in roots + added;
  }

  lemma Requeued(ids: seq<Id>, queue: seq<Id>, queue1: seq<Id>, u: Id, roots: seq<Id>, added: seq<Id>, more: seq<Id>)
    requires ids + queue == roots + added && queue != [] && queue[0] == u
    requires queue[1..] <= queue1 && more == queue1[|queue| - 1..]
    ensures (ids + [u]) + queue1 == roots + (added + more)
    ensures more == [] ==> |queue1| < |queue|
  {
    assert queue == [u] + queue[1..] && queue1 == queue[1..] + more;
    assert (ids + [u]) + queue1 == (ids + queue) + more;
  }

  lemma EnumerateMore(added: seq<Id>, more: seq<Id>, base: set<Id>, v0: set<Id>, v1: set<Id>)
    requires Enumerates(added, v0 - base) && Enumerates(more, v1 - v0) && base <= v0 <= v1
    ensures Enumerates(added + more, v1 - base)
    ensures v0 == v1 ==> more == []
  {
    forall i, j | 0 <= i < j < |added + more| ensures (added + more)[i] != (added + more)[j] {
      if i < |added| <= j {
        assert (added + more)[i] in added && (added + more)[j] in more;
      }
    }
    if more != [] { assert more[0] in more; }
  }

  lemma Listed(roots: seq<Id>, added: seq<Id>, visited: set<Id>, v: Id)
    requires Enumerates(added, visited - Elements(roots)) && v in visited
    ensures v in roots + added
  {
  }

  // Which pairs of IDs are unresolved: those an included record refers to and no record has.
  lemma UnresolvedPairs(records: seq<Record>, included: seq<Record>, unresolved: seq<Unresolved>, source: Id, target: Id)
    requires NotesDangling(records, included, unresolved)
    requires forall r :: r in included ==> IsLastVersion(records, r)
    ensures (exists relation :: Unresolved(source, target, relation) in unresolved) <==>
      !HasId(records, target) && exists r :: r in included && r.id == source && target in CollectReferences(r)
  {
    if r :| r in included && r.id == source && target in CollectReferences(r) && !HasId(records, target) {
      LinksAreReferences(r);
      var k :| 0 <= k < |CollectReferences(r)| && CollectReferences(r)[k] == target;
      var link := LinksOf(r)[k];
      var i :| 0 <= i < |records| && records[i] == r;
      assert LinksTo(records, source, target, link.relation);
      assert Dangles(records, r, Unresolved(source, target, link.relation));
    }
    if relation :| Unresolved(source, target, relation) in unresolved {
      var r :| r in included && Dangles(records, r, Unresolved(source, target, relation));
    }
  }
}
