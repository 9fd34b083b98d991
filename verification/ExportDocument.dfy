/** Assembling an export: `buildExportDocument` of src/cli/export.ts. */
module ExportDocument {
  import opened BeadGraph
  import opened EpicScope
  import opened FirstCycle
  import opened Ordering
  import opened Prelude
  import opened TopoOrder

  // ── the document ───────────────────────────────────────────────────────────

  datatype Document = Document(goal: string, epicId: Option<string>, beads: seq<Bead>, edges: seq<Edge>)

  datatype BuildResult = Built(doc: Document) | EpicNotFound(id: string) | Cyclic(path: seq<string>)

  /** Which beads an export may list: all of them, or an epic's subtree. */
  datatype Scope = Everything | Within(ids: set<string>) {
    predicate Has(id: string) {
      Everything? || id in ids
    }
  }

  /** In scope, and not an epic container. */
  predicate IsWork(scope: Scope, b: Bead) {
    scope.Has(b.id) && b.beadType != "epic"
  }

  function WorkOf(beads: seq<Bead>, scope: Scope): (w: seq<Bead>)
    ensures forall b :: multiset(w)[b] == if IsWork(scope, b) then multiset(beads)[b] else 0
  {
    if beads == [] then []
    else
      assert beads == [beads[0]] + beads[1..];
      (if IsWork(scope, beads[0]) then [beads[0]] else []) + WorkOf(beads[1..], scope)
  }

  const BEAD_ID_ORDER: (Bead, Bead) -> bool := (a: Bead, b: Bead) => StrLess(a.id, b.id)

  const EDGE_ORDER: (Edge, Edge) -> bool :=
    (a: Edge, b: Edge) => if a.from == b.from then StrLess(a.to, b.to) else StrLess(a.from, b.from)

  lemma BeadIdOrderIsWeakOrder()
    ensures WeakOrder(BEAD_ID_ORDER)
  {
    StringOrderIsWeakOrder();
    forall x, y | BEAD_ID_ORDER(x, y) ensures !BEAD_ID_ORDER(y, x) { StrTrichotomy(x.id, y.id); }
    forall x, y, z | !BEAD_ID_ORDER(y, x) && !BEAD_ID_ORDER(z, y) ensures !BEAD_ID_ORDER(z, x) {
      NotLessTransitive(x.id, y.id, z.id);
    }
  }

  lemma EdgeOrderIsWeakOrder()
    ensures WeakOrder(EDGE_ORDER)
  {
    forall x, y | EDGE_ORDER(x, y) ensures !EDGE_ORDER(y, x) {
      StrTrichotomy(x.from, y.from);
      StrTrichotomy(x.to, y.to);
    }
    forall x, y, z | !EDGE_ORDER(y, x) && !EDGE_ORDER(z, y) ensures !EDGE_ORDER(z, x) {
      StrTrichotomy(x.from, y.from);
      StrTrichotomy(y.from, z.from);
      StrTrichotomy(x.from, z.from);
      NotLessTransitive(x.from, y.from, z.from);
      if x.from == y.from == z.from {
        NotLessTransitive(x.to, y.to, z.to);
      }
    }
  }

  /** The work beads in id order. */
  function SortedWork(beads: seq<Bead>, scope: Scope): (w: seq<Bead>)
    ensures multiset(w) == multiset(WorkOf(beads, scope))
    ensures Sorted(w, BEAD_ID_ORDER)
  {
    BeadIdOrderIsWeakOrder();
    SortBy(WorkOf(beads, scope), BEAD_ID_ORDER)
  }

  function IdSet(beads: seq<Bead>): set<string> {
    set b | b in beads :: b.id
  }

  function KeptDeps(deps: seq<string>, ids: set<string>): (r: seq<string>)
    ensures forall d :: d in r <==> d in deps && d in ids
  {
    if deps == [] then [] else (if deps[0] in ids then [deps[0]] else []) + KeptDeps(deps[1..], ids)
  }

  /** Each bead with the dependencies that are not listed dropped. */
  function Rescoped(work: seq<Bead>, ids: set<string>): (r: seq<Bead>)
    ensures |r| == |work| && Ids(r) == Ids(work)
    ensures forall i :: 0 <= i < |r| ==> r[i] == work[i].(dependsOn := KeptDeps(work[i].dependsOn, ids))
  {
    seq(|work|, i requires 0 <= i < |work| => work[i].(dependsOn := KeptDeps(work[i].dependsOn, ids)))
  }

  function EdgesInto(b: Bead, deps: seq<string>, ids: set<string>): (es: seq<Edge>)
    ensures forall e :: e in es <==> e.to == b.id && e.from in deps && e.from in ids
  {
    if deps == [] then []
    else (if deps[0] in ids then [Edge(deps[0], b.id)] else []) + EdgesInto(b, deps[1..], ids)
  }

  function EdgesOf(work: seq<Bead>, ids: set<string>): (es: seq<Edge>)
    ensures forall e :: e in es <==> exists b :: b in work && e.to == b.id && e.from in b.dependsOn && e.from in ids
  {
    if work == [] then []
    else
      var n := |work| - 1;
      assert work == work[..n] + [work[n]];
      EdgesOf(work[..n], ids) + EdgesInto(work[n], work[n].dependsOn, ids)
  }

  function SortedEdges(work: seq<Bead>): (es: seq<Edge>)
    ensures multiset(es) == multiset(EdgesOf(work, IdSet(work))) && Sorted(es, EDGE_ORDER)
  {
    EdgeOrderIsWeakOrder();
    SortBy(EdgesOf(work, IdSet(work)), EDGE_ORDER)
  }

  /** The listing of `work`: its edges, and its beads in the least topological order. */
  ghost predicate IsListing(work: seq<Bead>, beads: seq<Bead>, edges: seq<Edge>) {
    var scoped := Rescoped(work, IdSet(work));
    && edges == SortedEdges(work)
    && IsLeastTopological(GraphOf(scoped, edges), Ids(beads))
    && forall b :: b in beads ==> b.id in ById(scoped) && b == ById(scoped)[b.id]
  }

  method PushEdges(work: seq<Bead>) returns (edges: seq<Edge>)
    ensures edges == EdgesOf(work, IdSet(work))
  {
    var nodeIds := IdSet(work);
    edges := [];
    for i := 0 to |work|
      invariant edges == EdgesOf(work[..i], nodeIds)
    {
      var into := PushInto(work[i], nodeIds);
      edges := edges + into;
      assert work[..i + 1][..i] == work[..i];
    }
    assert work[..|work|] == work;
  }

  method PushInto(b: Bead, nodeIds: set<string>) returns (edges: seq<Edge>)
    ensures edges == EdgesInto(b, b.dependsOn, nodeIds)
  {
    edges := [];
    for j := 0 to |b.dependsOn|
      invariant edges + EdgesInto(b, b.dependsOn[j..], nodeIds) == EdgesInto(b, b.dependsOn, nodeIds)
    {
      StepInto(b, b.dependsOn[j..], nodeIds, edges);
      if b.dependsOn[j] in nodeIds {
        edges := edges + [Edge(b.dependsOn[j], b.id)];
      }
    }
  }

  lemma StepInto(b: Bead, deps: seq<string>, ids: set<string>, sofar: seq<Edge>)
    requires deps != []
    ensures sofar + EdgesInto(b, deps, ids)
      == (if deps[0] in ids then sofar + [Edge(deps[0], b.id)] else sofar) + EdgesInto(b, deps[1..], ids)
  {
    var rest := EdgesInto(b, deps[1..], ids);
    Regroup(sofar, if deps[0] in ids then [Edge(deps[0], b.id)] else [], rest);
    assert sofar + [] == sofar;
  }

  /** A listing, in tie-break order. */
  ghost predicate IsOrdered(work: seq<Bead>, beads: seq<Bead>, edges: seq<Edge>) {
    IsListing(work, beads, edges) && InTieBreakOrder(beads, edges)
  }

  /** Lists the work beads: `edges`, `scopedWork` and `ordered` of `buildExportDocument`. */
  method List(work: seq<Bead>) returns (r: TopoResult, edges: seq<Edge>)
    ensures edges == SortedEdges(work)
    ensures r.CycleError? <==> HasCycle(WorkGraph(work))
    ensures r.CycleError? ==> IsClosedWalk(WorkGraph(work), r.path) && IsReported(WorkGraph(work), r.path)
    ensures r.Ordered? ==> IsOrdered(work, r.beads, edges)
  {
    hide IsReported, IsClosedWalk, HasCycle, GraphOf, IsLeastTopological, InTieBreakOrder, IsListing, IsOrdered, ById;
    var pushed := PushEdges(work);
    EdgeOrderIsWeakOrder();
    edges := SortBy(pushed, EDGE_ORDER);
    r := TopoOrder.TopoOrder(Rescoped(work, IdSet(work)), edges);
    if r.Ordered? {
      ListingOf(work, r.beads, edges);
    }
  }

  lemma ListingOf(work: seq<Bead>, beads: seq<Bead>, edges: seq<Edge>)
    requires edges == SortedEdges(work) && InTieBreakOrder(beads, edges)
    requires var scoped := Rescoped(work, IdSet(work));
      && IsLeastTopological(GraphOf(scoped, edges), Ids(beads))
      && forall b :: b in beads ==> b.id in ById(scoped) && b == ById(scoped)[b.id]
    ensures IsOrdered(work, beads, edges)
  {
  }

  /** The dependencies among the listed beads. */
  function WorkGraph(work: seq<Bead>): Graph {
    GraphOf(Rescoped(work, IdSet(work)), SortedEdges(work))
  }

  method BuildExportDocument(beads: seq<Bead>, epic: Option<string>) returns (r: BuildResult, ghost scope: Scope)
    ensures r.EpicNotFound? <==> epic.Some? && epic.value != "" && epic.value !in IdSet(beads)
    ensures !r.EpicNotFound? ==> IsScope(beads, epic, scope)
    ensures !r.EpicNotFound? ==> (r.Cyclic? <==> HasCycle(WorkGraph(SortedWork(beads, scope))))
    ensures r.Cyclic? ==> IsClosedWalk(WorkGraph(SortedWork(beads, scope)), r.path)
    ensures r.Cyclic? ==> IsReported(WorkGraph(SortedWork(beads, scope)), r.path)
    ensures r.Built? ==> IsDocument(beads, epic, scope, r.doc)
  {
    hide IsReported, IsClosedWalk, HasCycle, IsListing, InTieBreakOrder, IsHeader, IsFirst, IsDocument,
      IsScope, WorkGraph, SortedWork, SortedEdges, IsDescendant, Reaches, ParentLinks, IdSet;
    var picked := Everything;
    var goal, epicId := "Ready work", None;
    if epic.Some? && epic.value != "" {
      var epicBead := FindBead(beads, epic.value);
      if epicBead.None? {
        return EpicNotFound(epic.value), Everything;
      }
      epicId := Some(epicBead.value.id);
      goal := if epicBead.value.title != "" then epicBead.value.title else epicBead.value.id;
      var ids := CollectSubtreeIds(beads, epicBead.value.id);
      picked := Within(ids);
    }
    scope := picked;
    ScopeOf(beads, epic, scope);
    var ordered, edges := List(SortedWork(beads, picked));
    match ordered {
      case CycleError(path) => r := Cyclic(path);
      case Ordered(bs) =>
        var doc := Document(goal, epicId, bs, edges);
        HeaderOf(beads, epic, doc);
        DocumentOf(beads, epic, scope, doc);
        r := Built(doc);
    }
  }

  lemma ScopeOf(beads: seq<Bead>, epic: Option<string>, scope: Scope)
    requires epic.Some? && epic.value != "" ==>
               scope.Within? && forall x :: x in scope.ids <==> Reaches(ParentLinks(beads), epic.value, x)
    requires epic.None? || epic.value == "" ==> scope == Everything
    ensures IsScope(beads, epic, scope)
  {
  }

  lemma HeaderOf(beads: seq<Bead>, epic: Option<string>, doc: Document)
    requires epic.Some? && epic.value != "" ==>
               exists b :: IsFirst(beads, epic.value, b)
                        && doc.epicId == Some(b.id) && doc.goal == if b.title != "" then b.title else b.id
    requires epic.None? || epic.value == "" ==> doc.epicId == None && doc.goal == "Ready work"
    ensures IsHeader(beads, epic, doc)
  {
  }

  lemma DocumentOf(beads: seq<Bead>, epic: Option<string>, scope: Scope, doc: Document)
    requires IsListing(SortedWork(beads, scope), doc.beads, doc.edges)
    requires InTieBreakOrder(doc.beads, doc.edges) && IsHeader(beads, epic, doc)
    ensures IsDocument(beads, epic, scope, doc)
  {
  }

  method FindBead(beads: seq<Bead>, id: string) returns (r: Option<Bead>)
    ensures r.None? <==> id !in IdSet(beads)
    ensures r.Some? ==> r.value in beads && r.value.id == id
    ensures r.Some? ==> IsFirst(beads, id, r.value)
  {
    for i := 0 to |beads|
      invariant forall j :: 0 <= j < i ==> beads[j].id != id
    {
      if beads[i].id == id {
        return Some(beads[i]);
      }
    }
    return None;
  }

  ghost predicate IsFirst(beads: seq<Bead>, id: string, b: Bead) {
    exists i :: 0 <= i < |beads| && beads[i] == b && b.id == id && forall j :: 0 <= j < i ==> beads[j].id != id
  }

  ghost predicate IsScope(beads: seq<Bead>, epic: Option<string>, scope: Scope) {
    if epic.Some? && epic.value != "" then
      scope.Within? && forall x :: x in scope.ids <==> Reaches(ParentLinks(beads), epic.value, x)
    else scope == Everything
  }

  /** The scope's work listed in order, under the epic's name. */
  ghost predicate IsDocument(beads: seq<Bead>, epic: Option<string>, scope: Scope, doc: Document) {
    && IsListing(SortedWork(beads, scope), doc.beads, doc.edges)
    && InTieBreakOrder(doc.beads, doc.edges)
    && IsHeader(beads, epic, doc)
  }

  ghost predicate IsHeader(beads: seq<Bead>, epic: Option<string>, doc: Document) {
    if epic.Some? && epic.value != "" then
      exists b :: IsFirst(beads, epic.value, b)
               && doc.epicId == Some(b.id) && doc.goal == if b.title != "" then b.title else b.id
    else doc.epicId == None && doc.goal == "Ready work"
  }

  // ── what the document promises ─────────────────────────────────────────────

  lemma ScopedLookup(work: seq<Bead>, id: string)
    ensures id in ById(Rescoped(work, IdSet(work))) <==> id in IdSet(work)
  {
    var scoped := Rescoped(work, IdSet(work));
    if id in IdSet(work) {
      var k :| 0 <= k < |work| && work[k].id == id;
      assert scoped[k] in scoped && scoped[k].id == id;
    }
    if id in ById(scoped) {
      var b := ById(scoped)[id];
      var k :| 0 <= k < |scoped| && scoped[k] == b;
      assert work[k].id == id && work[k] in work;
    }
  }

  lemma EdgesInListing(work: seq<Bead>, e: Edge)
    ensures e in SortedEdges(work) <==> e in EdgesOf(work, IdSet(work))
  {
    assert e in SortedEdges(work) <==> e in multiset(SortedEdges(work));
    assert e in EdgesOf(work, IdSet(work)) <==> e in multiset(EdgesOf(work, IdSet(work)));
  }

  lemma ListedIds(work: seq<Bead>, beads: seq<Bead>, edges: seq<Edge>)
    requires IsListing(work, beads, edges)
    ensures IdSet(beads) == IdSet(work)
  {
    var order := Ids(beads);
    assert IsTopological(GraphOf(Rescoped(work, IdSet(work)), edges), order);
    forall x ensures x in IdSet(beads) <==> x in IdSet(work) {
      ScopedLookup(work, x);
      assert x in order <==> x in (set y | y in order);
      IdSetIsIds(beads, x);
    }
  }

  lemma IdSetIsIds(beads: seq<Bead>, x: string)
    ensures x in IdSet(beads) <==> x in Ids(beads)
  {
    if x in IdSet(beads) {
      var k :| 0 <= k < |beads| && beads[k].id == x;
      assert Ids(beads)[k] == x;
    }
    if x in Ids(beads) {
      var k :| 0 <= k < |beads| && Ids(beads)[k] == x;
      assert beads[k] in beads;
    }
  }

  /** A listing names each work bead once, after everything it depends on, and nothing outside itself. */
  lemma ListingIsSelfContained(work: seq<Bead>, beads: seq<Bead>, edges: seq<Edge>)
    requires IsListing(work, beads, edges)
    ensures NoDup(Ids(beads)) && IdSet(beads) == IdSet(work)
    ensures forall e :: e in edges ==> e.from in IdSet(beads) && e.to in IdSet(beads)
    ensures forall b, d :: b in beads && d in b.dependsOn ==> Edge(d, b.id) in edges
    ensures forall j, d :: 0 <= j < |beads| && d in beads[j].dependsOn ==> d in Ids(beads)[..j]
  {
    var scoped := Rescoped(work, IdSet(work));
    var g := GraphOf(scoped, edges);
    var order := Ids(beads);
    assert IsTopological(g, order);
    ListedIds(work, beads, edges);
    forall e | e in edges ensures e.from in IdSet(beads) && e.to in IdSet(beads) {
      EdgesInListing(work, e);
    }
    forall b, d | b in beads && d in b.dependsOn ensures Edge(d, b.id) in edges && Edge(d, b.id) in g.edges {
      DependencyIsEdge(work, b, d);
    }
    forall j, d | 0 <= j < |beads| && d in beads[j].dependsOn ensures d in order[..j] {
      var b := beads[j];
      assert b in beads;
      assert Edge(d, b.id) in g.edges && order[j] == b.id;
    }
  }

  lemma DependencyIsEdge(work: seq<Bead>, b: Bead, d: string)
    requires b.id in ById(Rescoped(work, IdSet(work))) && b == ById(Rescoped(work, IdSet(work)))[b.id]
    requires d in b.dependsOn
    ensures Edge(d, b.id) in SortedEdges(work)
    ensures Edge(d, b.id) in WorkGraph(work).edges
  {
    var scoped := Rescoped(work, IdSet(work));
    var k :| 0 <= k < |scoped| && scoped[k] == b;
    assert work[k] in work;
    EdgesInListing(work, Edge(d, b.id));
    ScopedLookup(work, d);
  }

  /** With distinct ids, the edges and the beads' own dependencies are one relation. */
  lemma EdgesAreDependencies(work: seq<Bead>, beads: seq<Bead>, edges: seq<Edge>)
    requires IsListing(work, beads, edges) && NoDup(Ids(work))
    ensures forall e :: e in edges <==> exists b :: b in beads && b.id == e.to && e.from in b.dependsOn
  {
    ListingIsSelfContained(work, beads, edges);
    var scoped := Rescoped(work, IdSet(work));
    forall e | e in edges ensures exists b :: b in beads && b.id == e.to && e.from in b.dependsOn {
      EdgesInListing(work, e);
      var w :| w in work && e.to == w.id && e.from in w.dependsOn && e.from in IdSet(work);
      var m :| 0 <= m < |beads| && beads[m].id == e.to;
      assert beads[m] in beads;
      ListedDependsOn(work, w, beads[m], e.from);
    }
  }

  /** A listed bead keeps each dependency of its work bead that is listed. */
  lemma ListedDependsOn(work: seq<Bead>, w: Bead, b: Bead, from: string)
    requires NoDup(Ids(work)) && w in work && b in Rescoped(work, IdSet(work)) && b.id == w.id
    requires from in w.dependsOn && from in IdSet(work)
    ensures from in b.dependsOn
  {
    var scoped := Rescoped(work, IdSet(work));
    var k :| 0 <= k < |work| && work[k] == w;
    var n :| 0 <= n < |scoped| && scoped[n] == b;
    assert Ids(work)[n] == Ids(scoped)[n] == b.id && Ids(work)[k] == w.id;
    assert n == k;
  }

  /** The same beads in any order give the same listing: an export is byte-identical from run to run. */
  lemma ListingIgnoresInputOrder(beads: seq<Bead>, beads': seq<Bead>, epic: Option<string>, scope: Scope, scope': Scope,
                                 listed: seq<Bead>, edges: seq<Edge>, listed': seq<Bead>, edges': seq<Edge>)
    requires NoDup(Ids(beads)) && multiset(beads) == multiset(beads')
    requires IsScope(beads, epic, scope) && IsScope(beads', epic, scope')
    requires IsListing(SortedWork(beads, scope), listed, edges)
    requires IsListing(SortedWork(beads', scope'), listed', edges')
    ensures listed == listed' && edges == edges'
  {
    SameScope(beads, beads', epic, scope, scope');
    SameWork(beads, beads', scope);
    var work := SortedWork(beads, scope);
    var scoped := Rescoped(work, IdSet(work));
    LeastIsUnique(GraphOf(scoped, edges), Ids(listed), Ids(listed'));
    assert |listed| == |Ids(listed)| == |Ids(listed')| == |listed'|;
    forall i | 0 <= i < |listed| ensures listed[i] == listed'[i] {
      assert listed[i] in listed && listed'[i] in listed';
      assert Ids(listed)[i] == Ids(listed')[i];
    }
  }

  /** Nor does it show in the cycle an export refuses to list. */
  lemma CycleIgnoresInputOrder(beads: seq<Bead>, beads': seq<Bead>, epic: Option<string>, scope: Scope, scope': Scope,
      cycle: seq<string>, cycle': seq<string>)
    requires NoDup(Ids(beads)) && multiset(beads) == multiset(beads')
    requires IsScope(beads, epic, scope) && IsScope(beads', epic, scope')
    requires IsReported(WorkGraph(SortedWork(beads, scope)), cycle)
    requires IsReported(WorkGraph(SortedWork(beads', scope')), cycle')
    ensures cycle == cycle'
  {
    hide IsReported, SortedWork, WorkGraph;
    SameScope(beads, beads', epic, scope, scope');
    SameWork(beads, beads', scope);
    ReportedIsUnique(WorkGraph(SortedWork(beads, scope)), cycle, cycle');
  }

  lemma SameScope(beads: seq<Bead>, beads': seq<Bead>, epic: Option<string>, scope: Scope, scope': Scope)
    requires multiset(beads) == multiset(beads')
    requires IsScope(beads, epic, scope) && IsScope(beads', epic, scope')
    ensures scope == scope'
  {
    forall b ensures b in beads <==> b in beads' {
      assert b in beads <==> b in multiset(beads);
      assert b in beads' <==> b in multiset(beads');
    }
    assert ParentLinks(beads) == ParentLinks(beads');
    if scope.Within? && scope'.Within? {
      assert scope.ids == scope'.ids;
    }
  }

  lemma SameWork(beads: seq<Bead>, beads': seq<Bead>, scope: Scope)
    requires NoDup(Ids(beads)) && multiset(beads) == multiset(beads')
    ensures SortedWork(beads, scope) == SortedWork(beads', scope)
  {
    var w, w' := WorkOf(beads, scope), WorkOf(beads', scope);
    assert multiset(w) == multiset(w') by {
      forall b ensures multiset(w)[b] == multiset(w')[b] {}
    }
    IdsTellWorkApart(beads, scope);
    SortedUnique(SortedWork(beads, scope), SortedWork(beads', scope), BEAD_ID_ORDER);
  }

  lemma IdsTellWorkApart(beads: seq<Bead>, scope: Scope)
    requires NoDup(Ids(beads))
    ensures forall x, y :: x in multiset(WorkOf(beads, scope)) && y in multiset(WorkOf(beads, scope)) && x != y ==>
              BEAD_ID_ORDER(x, y) || BEAD_ID_ORDER(y, x)
  {
    forall x, y | x in multiset(WorkOf(beads, scope)) && y in multiset(WorkOf(beads, scope)) && x != y
      ensures BEAD_ID_ORDER(x, y) || BEAD_ID_ORDER(y, x)
    {
      assert x in multiset(beads) && y in multiset(beads);
      IdsDiffer(beads, x, y);
      StrTrichotomy(x.id, y.id);
    }
  }

  lemma IdsDiffer(beads: seq<Bead>, x: Bead, y: Bead)
    requires NoDup(Ids(beads)) && x in beads && y in beads && x != y
    ensures x.id != y.id
  {
    var i :| 0 <= i < |beads| && beads[i] == x;
    var j :| 0 <= j < |beads| && beads[j] == y;
    assert Ids(beads)[i] != Ids(beads)[j];
  }

  /** What a listing lists: the beads that are not epics and, where an epic is named, descend from it. */
  lemma ListingIsTheWork(beads: seq<Bead>, epic: Option<string>, scope: Scope, listed: seq<Bead>, edges: seq<Edge>)
    requires IsScope(beads, epic, scope) && IsListing(SortedWork(beads, scope), listed, edges)
    ensures forall id :: id in IdSet(listed) <==>
              exists b :: b in beads && b.id == id && b.beadType != "epic"
                       && (epic.Some? && epic.value != "" ==> IsDescendant(beads, epic.value, id))
  {
    var work := SortedWork(beads, scope);
    ListingIsSelfContained(work, listed, edges);
    forall b ensures b in work <==> b in beads && IsWork(scope, b) {
      assert b in work <==> b in multiset(work);
      assert multiset(WorkOf(beads, scope))[b] == if IsWork(scope, b) then multiset(beads)[b] else 0;
      assert b in beads <==> b in multiset(beads);
    }
    forall id | epic.Some? && epic.value != "" ensures scope.Has(id) <==> IsDescendant(beads, epic.value, id) {
      ReachedAreDescendants(beads, epic.value, id);
    }
    assert forall id :: id in IdSet(work) <==> exists b :: b in work && b.id == id;
  }

  /** The edges are listed by the id that blocks, and among those of one by the id blocked. */
  lemma EdgesAreSorted(work: seq<Bead>, beads: seq<Bead>, edges: seq<Edge>, i: nat, j: nat)
    requires IsListing(work, beads, edges) && i < j < |edges|
    ensures edges[i] == edges[j] || Precedes(edges[i].from, edges[j].from)
         || (edges[i].from == edges[j].from && Precedes(edges[i].to, edges[j].to))
  {
    var e, f := edges[i], edges[j];
    assert !EDGE_ORDER(f, e);
    StrTrichotomy(e.from, f.from);
    StrTrichotomy(e.to, f.to);
    StrLessMeans(e.from, f.from);
    StrLessMeans(e.to, f.to);
  }

  lemma KeptOne(d: string, ids: set<string>)
    ensures KeptDeps([d], ids) == if d in ids then [d] else []
  {
    assert [d][1..] == [];
  }

  lemma KeptFirst(deps: seq<string>, ids: set<string>)
    requires deps != []
    ensures KeptDeps(deps, ids) == KeptDeps([deps[0]], ids) + KeptDeps(deps[1..], ids)
  {
    KeptOne(deps[0], ids);
  }

  /** Dropping the dependencies that are not listed keeps the others in their order, repeats included. */
  lemma {:induction false} KeptInOrder(a: seq<string>, b: seq<string>, ids: set<string>)
    ensures KeptDeps(a + b, ids) == KeptDeps(a, ids) + KeptDeps(b, ids)
    ensures forall d :: KeptDeps([d], ids) == if d in ids then [d] else []
  {
    hide KeptDeps;
    forall d { KeptOne(d, ids); }
    if a == [] {
      KeptNone(ids);
      assert a + b == b;
    } else {
      KeptInOrder(a[1..], b, ids);
      KeptFirst(a, ids);
      KeptFirst(a + b, ids);
      assert (a + b)[1..] == a[1..] + b;
      Regroup(KeptDeps([a[0]], ids), KeptDeps(a[1..], ids), KeptDeps(b, ids));
    }
  }

  lemma KeptNone(ids: set<string>)
    ensures KeptDeps([], ids) == []
  {
  }
}
