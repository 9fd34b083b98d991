/** `topoOrder` of src/cli/export.ts: Kahn's algorithm over mutable maps. */
module TopoOrder {
  import opened BeadGraph
  import opened FindCycle
  import opened FirstCycle
  import opened Prelude

  /** `ExportCycleError` carries the cycle it names. */
  datatype TopoResult = Ordered(beads: seq<Bead>) | CycleError(path: seq<string>)

  // ── what the two maps hold ────────────────────────────────────────────────

  /** Is `e` one of the edges the loop keeps: both ends are beads. */
  predicate InGraph(e: Edge, nodes: set<string>) {
    e.from in nodes && e.to in nodes
  }

  /** How many kept edges lead to `id` from a bead still waiting, repeats included. */
  function InDegree(edges: seq<Edge>, nodes: set<string>, waiting: set<string>, id: string): nat {
    if edges == [] then 0
    else
      var n := |edges| - 1;
      var hit := InGraph(edges[n], nodes) && edges[n].from in waiting && edges[n].to == id;
      InDegree(edges[..n], nodes, waiting, id) + if hit then 1 else 0
  }

  /** What `id` blocks, one entry per kept edge, in input order. */
  function Targets(edges: seq<Edge>, nodes: set<string>, id: string): seq<string> {
    if edges == [] then []
    else
      var n := |edges| - 1;
      Targets(edges[..n], nodes, id) + if InGraph(edges[n], nodes) && edges[n].from == id then [edges[n].to] else []
  }

  lemma {:induction false} InDegreeIsZero(edges: seq<Edge>, nodes: set<string>, waiting: set<string>, id: string)
    ensures InDegree(edges, nodes, waiting, id) == 0
       <==> forall e :: e in edges && InGraph(e, nodes) && e.to == id ==> e.from !in waiting
  {
    if edges != [] {
      var n := |edges| - 1;
      assert edges == edges[..n] + [edges[n]];
      InDegreeIsZero(edges[..n], nodes, waiting, id);
    }
  }

  lemma {:induction false} TargetsAreBlocked(edges: seq<Edge>, nodes: set<string>, id: string, t: string)
    ensures t in Targets(edges, nodes, id) <==> InGraph(Edge(id, t), nodes) && Edge(id, t) in edges
  {
    if edges != [] {
      var n := |edges| - 1;
      assert edges == edges[..n] + [edges[n]];
      TargetsAreBlocked(edges[..n], nodes, id, t);
    }
  }

  /** Emitting `id` lowers each in-degree by the number of times `id` blocks it. */
  lemma {:induction false} EmittingLowersInDegree(edges: seq<Edge>, nodes: set<string>, waiting: set<string>, id: string, x: string)
    requires waiting <= nodes && id in waiting
    ensures InDegree(edges, nodes, waiting, x)
         == InDegree(edges, nodes, waiting - {id}, x) + multiset(Targets(edges, nodes, id))[x]
  {
    if edges != [] {
      var n := |edges| - 1;
      EmittingLowersInDegree(edges[..n], nodes, waiting, id, x);
    }
  }

  // ── Kahn's algorithm ──────────────────────────────────────────────────────

  /** Scans the waiting beads in any order for the best one with nothing left blocking it. */
  method PickReady(byId: map<string, Bead>, indegree: map<string, int>, waiting: set<string>)
    returns (best: Option<string>)
    requires waiting <= byId.Keys && waiting <= indegree.Keys
    requires forall id :: id in byId ==> byId[id].id == id
    ensures best.None? <==> forall id :: id in waiting ==> indegree[id] != 0
    ensures best.Some? ==>
              && best.value in waiting && indegree[best.value] == 0
              && forall id :: id in waiting && id != best.value && indegree[id] == 0 ==>
                   ComesFirst(byId[best.value], byId[id])
  {
    best := None;
    var todo := waiting;
    while todo != {}
      invariant todo <= waiting
      invariant best.None? <==> forall id :: id in waiting - todo ==> indegree[id] != 0
      invariant best.Some? ==>
                  && best.value in waiting && best.value !in todo && indegree[best.value] == 0
                  && forall id :: id in waiting - todo && id != best.value && indegree[id] == 0 ==>
                       Before(byId[best.value], byId[id])
      decreases todo
    {
      var id :| id in todo;
      todo := todo - {id};
      if indegree[id] == 0 {
        if best.None? || Before(byId[id], byId[best.value]) {
          ghost var old_ := best;
          if old_.Some? {
            forall x | x in waiting - todo && x != id && indegree[x] == 0 ensures Before(byId[id], byId[x]) {
              if x != old_.value { BeforeIsTransitive(byId[id], byId[old_.value], byId[x]); }
            }
          }
          best := Some(id);
        } else {
          BeforeIsTotal(byId[id], byId[best.value]);
        }
      }
    }
    forall id | best.Some? && id in waiting ensures Before(byId[best.value], byId[id]) <==> ComesFirst(byId[best.value], byId[id]) {
      BeforeMeans(byId[best.value], byId[id]);
    }
  }

  /** Fills `indegree` and `blocks` from the edges between known beads. */
  method CountEdges(byId: map<string, Bead>, edges: seq<Edge>)
    returns (indegree: map<string, int>, blocks: map<string, seq<string>>)
    ensures indegree.Keys == byId.Keys
    ensures forall id :: id in byId ==> indegree[id] == InDegree(edges, byId.Keys, byId.Keys, id)
    ensures forall id :: Blocked(blocks, id) == Targets(edges, byId.Keys, id)
  {
    indegree, blocks := map id | id in byId :: 0, map[];
    for i := 0 to |edges|
      invariant indegree.Keys == byId.Keys
      invariant forall id :: id in byId ==> indegree[id] == InDegree(edges[..i], byId.Keys, byId.Keys, id)
      invariant forall id :: Blocked(blocks, id) == Targets(edges[..i], byId.Keys, id)
    {
      var e := edges[i];
      assert edges[..i + 1][..i] == edges[..i];
      if e.from in byId && e.to in byId {
        indegree := indegree[e.to := indegree[e.to] + 1];
        blocks := blocks[e.from := Blocked(blocks, e.from) + [e.to]];
      }
    }
    assert edges[..|edges|] == edges;
  }

  /** `for (const blocked of ...) indegree.set(blocked, indegree.get(blocked) - 1)` */
  method Discount(indegree: map<string, int>, list: seq<string>) returns (r: map<string, int>)
    requires forall x :: x in list ==> x in indegree
    ensures r.Keys == indegree.Keys
    ensures forall x :: x in r ==> r[x] == indegree[x] - multiset(list)[x]
  {
    r := indegree;
    for j := 0 to |list|
      invariant r.Keys == indegree.Keys
      invariant forall x :: x in r ==> r[x] == indegree[x] - multiset(list[..j])[x]
    {
      assert list[..j + 1] == list[..j] + [list[j]];
      r := r[list[j] := r[list[j]] - 1];
    }
    assert list[..|list|] == list;
  }

  /** The loop of `topoOrder`: emits until nothing waits or nothing waiting is ready. */
  method Drain(beads: seq<Bead>, edges: seq<Edge>, byId: map<string, Bead>)
    returns (ordered: seq<Bead>, waiting: set<string>, blocks: map<string, seq<string>>)
    requires byId == ById(beads)
    ensures forall b :: b in ordered ==> b.id in byId && b == byId[b.id]
    ensures waiting == Waiting(GraphOf(beads, edges), Ids(ordered))
    ensures IsGreedy(GraphOf(beads, edges), Ids(ordered))
    ensures forall id :: id in waiting ==> InDegree(edges, byId.Keys, waiting, id) != 0
    ensures forall id :: Blocked(blocks, id) == Targets(edges, byId.Keys, id)
  {
    hide InDegree, Targets, Blocked;
    ghost var g := GraphOf(beads, edges);
    var indegree;
    indegree, blocks := CountEdges(byId, edges);
    waiting := byId.Keys;
    ordered := [];
    while waiting != {}
      invariant waiting <= byId.Keys && indegree.Keys == byId.Keys
      invariant forall id :: id in byId ==> indegree[id] == InDegree(edges, byId.Keys, waiting, id)
      invariant forall b :: b in ordered ==> b.id in byId && b == byId[b.id]
      invariant waiting == Waiting(g, Ids(ordered))
      invariant IsGreedy(g, Ids(ordered))
      decreases waiting
    {
      var next := PickReady(byId, indegree, waiting);
      if next.None? { return; }
      PickedIsBest(beads, edges, waiting, indegree, next.value);
      ExtendGreedy(g, ordered, byId[next.value]);
      var list := Blocked(blocks, next.value);
      TargetsAreKnown(edges, byId.Keys, next.value);
      indegree := Discount(indegree, list);
      forall x | x in byId ensures indegree[x] == InDegree(edges, byId.Keys, waiting - {next.value}, x) {
        EmittingLowersInDegree(edges, byId.Keys, waiting, next.value, x);
      }
      waiting := waiting - {next.value};
      ordered := ordered + [byId[next.value]];
    }
  }

  method TopoOrder(beads: seq<Bead>, edges: seq<Edge>) returns (r: TopoResult)
    ensures r.Ordered? ==> IsLeastTopological(GraphOf(beads, edges), Ids(r.beads))
    ensures r.Ordered? ==> forall b :: b in r.beads ==> b.id in ById(beads) && b == ById(beads)[b.id]
    ensures r.Ordered? ==> InTieBreakOrder(r.beads, edges)
    ensures r.CycleError? ==> IsClosedWalk(GraphOf(beads, edges), r.path)
    ensures r.CycleError? <==> HasCycle(GraphOf(beads, edges))
    ensures r.CycleError? ==> IsReported(GraphOf(beads, edges), r.path)
  {
    hide InTieBreakOrder, IsReported;
    ghost var g := GraphOf(beads, edges);
    var ordered, waiting, blocks := Drain(beads, edges, ById(beads));
    if waiting == {} {
      GreedyIsLeast(g, Ids(ordered));
      OrderedMeansAcyclic(g, Ids(ordered));
      NeighboursComeFirst(beads, edges, ordered);
      r := Ordered(ordered);
    } else {
      var path := FindCycle.FindCycle(waiting, blocks);
      StallReturns(beads, edges, waiting, blocks);
      StallIsReported(beads, edges, Ids(ordered), waiting, blocks, path);
      ReturningWalkIsCycle(beads, edges, waiting, blocks, path);
      r := CycleError(path);
    }
  }

  lemma NeighboursComeFirst(beads: seq<Bead>, edges: seq<Edge>, ordered: seq<Bead>)
    requires IsGreedy(GraphOf(beads, edges), Ids(ordered)) && Waiting(GraphOf(beads, edges), Ids(ordered)) == {}
    requires forall b :: b in ordered ==> b.id in ById(beads) && b == ById(beads)[b.id]
    ensures InTieBreakOrder(ordered, edges)
  {
    forall i | 0 <= i < |ordered| - 1 && Edge(ordered[i].id, ordered[i + 1].id) !in edges
      ensures ComesFirst(ordered[i], ordered[i + 1])
    {
      assert ordered[i] in ordered && ordered[i + 1] in ordered;
      GreedyNeighbours(GraphOf(beads, edges), Ids(ordered), i);
    }
  }

  /** Neither the order of the beads, nor the order or repetition of the edges, shows in the result. */
  lemma OrderIgnoresInputOrder(beads: seq<Bead>, beads': seq<Bead>, edges: seq<Edge>, edges': seq<Edge>,
                               out: seq<Bead>, out': seq<Bead>)
    requires NoDup(Ids(beads)) && multiset(beads) == multiset(beads')
    requires forall e :: e in edges <==> e in edges'
    requires IsLeastTopological(GraphOf(beads, edges), Ids(out))
    requires IsLeastTopological(GraphOf(beads', edges'), Ids(out'))
    requires forall b :: b in out ==> b.id in ById(beads) && b == ById(beads)[b.id]
    requires forall b :: b in out' ==> b.id in ById(beads') && b == ById(beads')[b.id]
    ensures out == out'
  {
    GraphIgnoresInputOrder(beads, beads', edges, edges');
    LeastIsUnique(GraphOf(beads, edges), Ids(out), Ids(out'));
    assert |out| == |Ids(out)| == |Ids(out')| == |out'|;
    forall i | 0 <= i < |out| ensures out[i] == out'[i] {
      assert out[i] in out && out'[i] in out';
      assert Ids(out)[i] == Ids(out')[i];
      assert GraphOf(beads, edges).nodes == GraphOf(beads', edges').nodes;
    }
  }

  /** And so is the cycle reported: it is the graph's, whatever the listing. */
  lemma CycleIgnoresInputOrder(beads: seq<Bead>, beads': seq<Bead>, edges: seq<Edge>, edges': seq<Edge>,
                               cycle: seq<string>, cycle': seq<string>)
    requires NoDup(Ids(beads)) && multiset(beads) == multiset(beads')
    requires forall e :: e in edges <==> e in edges'
    requires IsReported(GraphOf(beads, edges), cycle) && IsReported(GraphOf(beads', edges'), cycle')
    ensures cycle == cycle'
  {
    hide IsReported;
    GraphIgnoresInputOrder(beads, beads', edges, edges');
    ReportedIsUnique(GraphOf(beads, edges), cycle, cycle');
  }

  /** What the search finds at a stall is the cycle reported for the graph. */
  lemma StallIsReported(beads: seq<Bead>, edges: seq<Edge>, emitted: seq<string>, waiting: set<string>,
      blocks: map<string, seq<string>>, path: seq<string>)
    requires waiting == Waiting(GraphOf(beads, edges), emitted) && waiting != {} && waiting <= ById(beads).Keys
    requires IsGreedy(GraphOf(beads, edges), emitted)
    requires forall id :: id in waiting ==> InDegree(edges, ById(beads).Keys, waiting, id) != 0
    requires forall id :: Blocked(blocks, id) == Targets(edges, ById(beads).Keys, id)
    requires SearchAll(LinksIn(waiting, blocks), [], {}, waiting) == Found(path)
    ensures IsReported(GraphOf(beads, edges), path)
  {
    hide InDegree, Targets, Blocked, SearchAll, IsGreedy, IsBestReady, Ready, Waiting, GraphOf, LinksIn, LinksAmong, ById;
    NoneIsReady(beads, edges, waiting);
    LinksAgree(beads, edges, waiting, blocks);
    assert IsStall(GraphOf(beads, edges), emitted);
  }

  lemma NoneIsReady(beads: seq<Bead>, edges: seq<Edge>, waiting: set<string>)
    requires waiting <= ById(beads).Keys
    requires forall id :: id in waiting ==> InDegree(edges, ById(beads).Keys, waiting, id) != 0
    ensures forall id :: id in waiting ==> !Ready(GraphOf(beads, edges), waiting, id)
  {
    forall id | id in waiting ensures !Ready(GraphOf(beads, edges), waiting, id) {
      ReadyIsZero(beads, edges, waiting, id);
    }
  }

  lemma LinksAgree(beads: seq<Bead>, edges: seq<Edge>, waiting: set<string>, blocks: map<string, seq<string>>)
    requires waiting <= ById(beads).Keys
    requires forall id :: Blocked(blocks, id) == Targets(edges, ById(beads).Keys, id)
    ensures LinksIn(waiting, blocks) == LinksAmong(GraphOf(beads, edges), waiting)
  {
    forall x | x in waiting ensures LinksIn(waiting, blocks)[x] == LinksAmong(GraphOf(beads, edges), waiting)[x] {
      LinksAgreeAt(beads, edges, waiting, blocks, x);
    }
  }

  lemma LinksAgreeAt(beads: seq<Bead>, edges: seq<Edge>, waiting: set<string>, blocks: map<string, seq<string>>, x: string)
    requires waiting <= ById(beads).Keys && x in waiting
    requires forall id :: Blocked(blocks, id) == Targets(edges, ById(beads).Keys, id)
    ensures LinksIn(waiting, blocks)[x] == LinksAmong(GraphOf(beads, edges), waiting)[x]
  {
    forall y ensures y in LinksIn(waiting, blocks)[x] <==> y in LinksAmong(GraphOf(beads, edges), waiting)[x] {
      TargetsAreBlocked(edges, ById(beads).Keys, x, y);
      assert Edge(x, y).to == y;
    }
  }

  /** A stall: every waiting bead is blocked by a waiting one, so no search finishes them all. */
  lemma StallReturns(beads: seq<Bead>, edges: seq<Edge>, waiting: set<string>, blocks: map<string, seq<string>>)
    requires waiting != {} && waiting <= ById(beads).Keys
    requires forall id :: id in waiting ==> InDegree(edges, ById(beads).Keys, waiting, id) != 0
    requires forall id :: Blocked(blocks, id) == Targets(edges, ById(beads).Keys, id)
    ensures forall f :: !IsFinishingOrder(waiting, blocks, f)
  {
    forall f | NoDup(f) && (set x | x in f) == waiting
      ensures !IsFinishingOrder(waiting, blocks, f)
    {
      var y := f[|f| - 1];
      assert y in waiting;
      InDegreeIsZero(edges, ById(beads).Keys, waiting, y);
      var e :| e in edges && InGraph(e, ById(beads).Keys) && e.to == y && e.from in waiting;
      TargetsAreBlocked(edges, ById(beads).Keys, e.from, y);
      assert e.from in f;
      var i :| 0 <= i < |f| && f[i] == e.from;
      assert LeadsIn(waiting, blocks, f[i], y);
      assert y !in f[..i];
    }
  }

  lemma TargetsAreKnown(edges: seq<Edge>, nodes: set<string>, id: string)
    ensures forall t :: t in Targets(edges, nodes, id) ==> t in nodes
  {
    forall t | t in Targets(edges, nodes, id) ensures t in nodes {
      TargetsAreBlocked(edges, nodes, id, t);
    }
  }

  lemma ReturningWalkIsCycle(beads: seq<Bead>, edges: seq<Edge>, waiting: set<string>, blocks: map<string, seq<string>>, p: seq<string>)
    requires ReturnsIn(waiting, blocks, p)
    requires forall id :: Blocked(blocks, id) == Targets(edges, ById(beads).Keys, id)
    ensures IsClosedWalk(GraphOf(beads, edges), p)
  {
    forall i | 0 <= i < |p| - 1 ensures Edge(p[i], p[i + 1]) in GraphOf(beads, edges).edges {
      assert LeadsIn(waiting, blocks, p[i], p[i + 1]);
      TargetsAreBlocked(edges, ById(beads).Keys, p[i], p[i + 1]);
    }
  }

  lemma PickedIsBest(beads: seq<Bead>, edges: seq<Edge>, waiting: set<string>, indegree: map<string, int>, best: string)
    requires waiting <= ById(beads).Keys && waiting <= indegree.Keys && best in waiting
    requires forall id :: id in waiting ==> indegree[id] == InDegree(edges, ById(beads).Keys, waiting, id)
    requires indegree[best] == 0
    requires forall id :: id in waiting && id != best && indegree[id] == 0 ==> ComesFirst(ById(beads)[best], ById(beads)[id])
    ensures IsBestReady(GraphOf(beads, edges), waiting, best)
  {
    forall id | id in waiting ensures Before(ById(beads)[best], ById(beads)[id]) <==> ComesFirst(ById(beads)[best], ById(beads)[id]) {
      BeforeMeans(ById(beads)[best], ById(beads)[id]);
    }
    forall id | id in waiting ensures Ready(GraphOf(beads, edges), waiting, id) <==> indegree[id] == 0 {
      ReadyIsZero(beads, edges, waiting, id);
    }
  }

  lemma ReadyIsZero(beads: seq<Bead>, edges: seq<Edge>, waiting: set<string>, id: string)
    requires waiting <= ById(beads).Keys && id in waiting
    ensures Ready(GraphOf(beads, edges), waiting, id)
       <==> InDegree(edges, ById(beads).Keys, waiting, id) == 0
  {
    InDegreeIsZero(edges, ById(beads).Keys, waiting, id);
  }

  lemma ExtendGreedy(g: Graph, ordered: seq<Bead>, b: Bead)
    requires IsGreedy(g, Ids(ordered)) && IsBestReady(g, Waiting(g, Ids(ordered)), b.id)
    ensures IsGreedy(g, Ids(ordered + [b]))
    ensures Waiting(g, Ids(ordered + [b])) == Waiting(g, Ids(ordered)) - {b.id}
  {
    var p, q := Ids(ordered), Ids(ordered + [b]);
    assert q == p + [b.id];
    forall k | 0 <= k < |q| ensures IsBestReady(g, Waiting(g, q[..k]), q[k]) {
      assert q[..k] == p[..k];
      assert k == |p| ==> p[..k] == p;
    }
  }
}
