/**
 What an export is about: beads, the `blocks` edges between them, and the orders
 that respect the edges. Specification only; the algorithms are in TopoOrder.
 */
module BeadGraph {
  import opened Ordering
  import opened Prelude

  datatype Bead = Bead(id: string, title: string, priority: int, beadType: string,
                       parent: Option<string>, dependsOn: seq<string>)

  /** `from` blocks `to`. */
  datatype Edge = Edge(from: string, to: string)

  /** The beads by id, and the edges with both ends among them. */
  datatype Graph = Graph(nodes: map<string, Bead>, edges: set<Edge>)

  /** `new Map(beads.map(b => [b.id, b]))`: the last bead of an id wins. */
  function ById(beads: seq<Bead>): (m: map<string, Bead>)
    ensures forall id :: id in m ==> m[id].id == id && m[id] in beads
    ensures forall b :: b in beads ==> b.id in m
  {
    if beads == [] then map[]
    else
      var n := |beads| - 1;
      assert beads == beads[..n] + [beads[n]];
      ById(beads[..n])[beads[n].id := beads[n]]
  }

  /** Of several beads with one id the last is kept. */
  lemma {:induction false} LastOfIdIsKept(beads: seq<Bead>, k: nat)
    requires k < |beads| && forall j :: k < j < |beads| ==> beads[j].id != beads[k].id
    ensures beads[k].id in ById(beads) && ById(beads)[beads[k].id] == beads[k]
  {
    var n := |beads| - 1;
    OneMoreBead(beads);
    if k < n {
      hide ById;
      assert forall j :: k < j < n ==> beads[..n][j] == beads[j];
      LastOfIdIsKept(beads[..n], k);
    }
  }

  lemma OneMoreBead(beads: seq<Bead>)
    requires beads != []
    ensures var n := |beads| - 1; ById(beads) == ById(beads[..n])[beads[n].id := beads[n]]
  {
  }

  function GraphOf(beads: seq<Bead>, edges: seq<Edge>): (g: Graph)
    ensures WellFormed(g)
  {
    var nodes := ById(beads);
    Graph(nodes, set e | e in edges && e.from in nodes && e.to in nodes)
  }

  predicate WellFormed(g: Graph) {
    && (forall e :: e in g.edges ==> e.from in g.nodes && e.to in g.nodes)
    && (forall id :: id in g.nodes ==> g.nodes[id].id == id)
  }

  function Ids(beads: seq<Bead>): (ids: seq<string>)
    ensures |ids| == |beads|
    ensures forall i :: 0 <= i < |ids| ==> ids[i] == beads[i].id
  {
    seq(|beads|, i requires 0 <= i < |beads| => beads[i].id)
  }

  ghost predicate NoDup<T>(s: seq<T>) {
    forall i, j :: 0 <= i < j < |s| ==> s[i] != s[j]
  }

  /** The tie-break among ready beads: lowest priority number, then lowest id. */
  predicate Before(a: Bead, b: Bead) {
    a.priority < b.priority || (a.priority == b.priority && StrLess(a.id, b.id))
  }

  /** What the tie-break comes to, written out: a lower priority number, or the same and an id that sorts first. */
  ghost predicate ComesFirst(a: Bead, b: Bead) {
    && a.priority <= b.priority
    && (a.priority == b.priority ==> Precedes(a.id, b.id))
  }

  /** Of two neighbours the first comes first by priority and id, unless it blocks the second. */
  ghost predicate InTieBreakOrder(beads: seq<Bead>, edges: seq<Edge>) {
    forall i :: 0 <= i < |beads| - 1 ==> Edge(beads[i].id, beads[i + 1].id) in edges || ComesFirst(beads[i], beads[i + 1])
  }

  lemma BeforeMeans(a: Bead, b: Bead)
    ensures Before(a, b) <==> ComesFirst(a, b)
  {
    StrLessMeans(a.id, b.id);
  }

  lemma BeforeIsTotal(a: Bead, b: Bead)
    ensures a.id == b.id || Before(a, b) || Before(b, a)
    ensures !(Before(a, b) && Before(b, a))
  {
    StrTrichotomy(a.id, b.id);
  }

  lemma BeforeIsTransitive(a: Bead, b: Bead, c: Bead)
    requires Before(a, b) && Before(b, c)
    ensures Before(a, c)
  {
    if a.priority == b.priority == c.priority {
      StrTransitive(a.id, b.id, c.id);
    }
  }

  // ── topological orders ─────────────────────────────────────────────────────

  /** Nothing still waiting blocks `id`. */
  ghost predicate Ready(g: Graph, waiting: set<string>, id: string) {
    forall e :: e in g.edges && e.to == id ==> e.from !in waiting
  }

  /** Every bead once, each after everything that blocks it. */
  ghost predicate IsTopological(g: Graph, order: seq<string>) {
    && NoDup(order)
    && (set x | x in order) == g.nodes.Keys
    && forall j, e :: 0 <= j < |order| && e in g.edges && e.to == order[j] ==> e.from in order[..j]
  }

  ghost predicate LexLeq(g: Graph, p: seq<string>, q: seq<string>)
    requires forall x :: x in p || x in q ==> x in g.nodes
  {
    p == q || exists k: nat :: FirstDifference(g, p, q, k)
  }

  /** `p` and `q` part at `k`, where `p` has the bead the tie-break prefers. */
  ghost predicate FirstDifference(g: Graph, p: seq<string>, q: seq<string>, k: nat)
    requires forall x :: x in p || x in q ==> x in g.nodes
  {
    && k < |p| && k < |q| && p[..k] == q[..k]
    && Before(g.nodes[p[k]], g.nodes[q[k]])
  }

  /** The first topological order, comparing position by position with the tie-break. */
  ghost predicate IsLeastTopological(g: Graph, order: seq<string>) {
    && IsTopological(g, order)
    && forall q :: IsTopological(g, q) ==>
         (forall x :: x in order || x in q ==> x in g.nodes) && LexLeq(g, order, q)
  }

  /** Among the ready beads of `waiting`, the one the tie-break prefers. */
  ghost predicate IsBestReady(g: Graph, waiting: set<string>, id: string)
    requires waiting <= g.nodes.Keys
  {
    && id in waiting && Ready(g, waiting, id)
    && forall x :: x in waiting && x != id && Ready(g, waiting, x) ==> Before(g.nodes[id], g.nodes[x])
  }

  ghost function Waiting(g: Graph, emitted: seq<string>): set<string> {
    g.nodes.Keys - (set x | x in emitted)
  }

  /** Each bead was the best ready one when it was emitted. */
  ghost predicate IsGreedy(g: Graph, order: seq<string>) {
    forall k {:trigger order[..k]} :: 0 <= k < |order| ==> IsBestReady(g, Waiting(g, order[..k]), order[k])
  }

  lemma GreedyIsTopological(g: Graph, order: seq<string>)
    requires IsGreedy(g, order) && Waiting(g, order) == {}
    requires WellFormed(g)
    ensures IsTopological(g, order)
  {
    forall i, j | 0 <= i < j < |order| ensures order[i] != order[j] {
      assert order[j] in Waiting(g, order[..j]);
      assert order[i] in order[..j];
    }
    forall x | x in order ensures x in g.nodes {
      var k :| 0 <= k < |order| && order[k] == x;
      assert IsBestReady(g, Waiting(g, order[..k]), order[k]);
    }
    forall x | x in g.nodes ensures x in order {
      assert x !in Waiting(g, order);
    }
    forall j, e | 0 <= j < |order| && e in g.edges && e.to == order[j] ensures e.from in order[..j] {
      assert e.from !in Waiting(g, order[..j]);
    }
  }

  /** Emitting the best ready bead every time gives the least topological order. */
  lemma GreedyIsLeast(g: Graph, order: seq<string>)
    requires IsGreedy(g, order) && Waiting(g, order) == {}
    requires WellFormed(g)
    ensures IsLeastTopological(g, order)
  {
    GreedyIsTopological(g, order);
    forall q | IsTopological(g, q)
      ensures (forall x :: x in order || x in q ==> x in g.nodes) && LexLeq(g, order, q)
    {
      forall x | x in order || x in q ensures x in g.nodes {
        assert x in (set y | y in order) || x in (set y | y in q);
      }
      if order != q {
        SameLength(g, order, q);
        var k := PartingPoint(order, q);
        GreedyWinsAt(g, order, q, k);
      }
    }
  }

  /** Of two beads in the order, the later one comes first by the tie-break only if something from the earlier on blocks it. */
  lemma GreedyAtEachPlace(g: Graph, order: seq<string>, i: nat, j: nat)
    requires IsGreedy(g, order) && Waiting(g, order) == {} && WellFormed(g)
    requires i < j < |order| && forall e :: e in g.edges && e.to == order[j] ==> e.from in order[..i]
    ensures order[i] in g.nodes && order[j] in g.nodes && ComesFirst(g.nodes[order[i]], g.nodes[order[j]])
  {
    GreedyIsTopological(g, order);
    var waiting := Waiting(g, order[..i]);
    assert IsBestReady(g, waiting, order[i]);
    assert order[j] in (set x | x in order);
    assert order[j] in waiting;
    assert Ready(g, waiting, order[j]);
    BeforeMeans(g.nodes[order[i]], g.nodes[order[j]]);
  }

  /** Of two neighbours in the order the first comes first, unless it blocks the second. */
  lemma GreedyNeighbours(g: Graph, order: seq<string>, i: nat)
    requires IsGreedy(g, order) && Waiting(g, order) == {} && WellFormed(g)
    requires i + 1 < |order| && Edge(order[i], order[i + 1]) !in g.edges
    ensures order[i] in g.nodes && order[i + 1] in g.nodes && ComesFirst(g.nodes[order[i]], g.nodes[order[i + 1]])
  {
    GreedyIsTopological(g, order);
    forall e | e in g.edges && e.to == order[i + 1] ensures e.from in order[..i] {
      assert e == Edge(e.from, order[i + 1]);
      assert e.from in order[..i + 1];
    }
    GreedyAtEachPlace(g, order, i, i + 1);
  }

  lemma SameLength(g: Graph, p: seq<string>, q: seq<string>)
    requires IsTopological(g, p) && IsTopological(g, q)
    ensures |p| == |q|
  {
    NoDupSize(p);
    NoDupSize(q);
  }

  lemma {:induction false} NoDupSize<T>(s: seq<T>)
    requires NoDup(s)
    ensures |set x | x in s| == |s|
  {
    if s != [] {
      var n := |s| - 1;
      NoDupSize(s[..n]);
      assert (set x | x in s) == (set x | x in s[..n]) + {s[n]};
      assert s[n] !in s[..n];
    }
  }

  lemma {:induction false} PartingPoint(p: seq<string>, q: seq<string>) returns (k: nat)
    requires |p| == |q| && p != q
    ensures k < |p| && p[..k] == q[..k] && p[k] != q[k]
  {
    if p[0] != q[0] {
      k := 0;
    } else {
      assert p == [p[0]] + p[1..] && q == [q[0]] + q[1..];
      var j := PartingPoint(p[1..], q[1..]);
      k := j + 1;
      assert p[..k] == [p[0]] + p[1..][..j];
      assert q[..k] == [q[0]] + q[1..][..j];
    }
  }

  lemma GreedyWinsAt(g: Graph, order: seq<string>, q: seq<string>, k: nat)
    requires IsGreedy(g, order) && IsTopological(g, order) && IsTopological(g, q)
    requires k < |order| == |q| && order[..k] == q[..k] && order[k] != q[k]
    requires forall x :: x in order || x in q ==> x in g.nodes
    ensures FirstDifference(g, order, q, k)
  {
    var waiting := Waiting(g, order[..k]);
    assert IsBestReady(g, waiting, order[k]);
    assert forall i :: 0 <= i < k ==> q[i] != q[k];
    assert q[k] in waiting;
    assert Ready(g, waiting, q[k]);
  }

  /** The least topological order is the only one: nothing about the input's order can show in it. */
  lemma LeastIsUnique(g: Graph, p: seq<string>, q: seq<string>)
    requires IsLeastTopological(g, p) && IsLeastTopological(g, q)
    ensures p == q
  {
    assert LexLeq(g, p, q) && LexLeq(g, q, p);
    if k: nat :| FirstDifference(g, p, q, k) {
      forall j: nat ensures !FirstDifference(g, q, p, j) {
        NotFirstBothWays(g, p, q, k, j);
      }
    }
  }

  lemma NotFirstBothWays(g: Graph, p: seq<string>, q: seq<string>, k: nat, j: nat)
    requires forall x :: x in p || x in q ==> x in g.nodes
    requires FirstDifference(g, p, q, k)
    ensures !FirstDifference(g, q, p, j)
  {
    BeforeIsTotal(g.nodes[p[k]], g.nodes[q[k]]);
    if j < k {
      assert p[j] == p[..k][j] == q[..k][j] == q[j];
      BeforeIsTotal(g.nodes[p[j]], g.nodes[q[j]]);
    } else if k < j < |p| && j < |q| {
      assert p[..j][k] != q[..j][k];
    }
  }

  lemma OneBeadOfId(beads: seq<Bead>, a: Bead, b: Bead)
    requires NoDup(Ids(beads)) && a in beads && b in beads && a.id == b.id
    ensures a == b
  {
    var i :| 0 <= i < |beads| && beads[i] == a;
    var j :| 0 <= j < |beads| && beads[j] == b;
    assert Ids(beads)[i] == Ids(beads)[j];
  }

  /** Reordering the beads (ids distinct) and reordering or repeating edges leaves the graph as it was. */
  lemma GraphIgnoresInputOrder(beads: seq<Bead>, beads': seq<Bead>, edges: seq<Edge>, edges': seq<Edge>)
    requires NoDup(Ids(beads)) && multiset(beads) == multiset(beads')
    requires forall e :: e in edges <==> e in edges'
    ensures GraphOf(beads, edges) == GraphOf(beads', edges')
  {
    forall b ensures b in beads <==> b in beads' {
      assert b in beads <==> b in multiset(beads);
      assert b in beads' <==> b in multiset(beads');
    }
    var m, m' := ById(beads), ById(beads');
    forall id | id in m && id in m' ensures m[id] == m'[id] {
      OneBeadOfId(beads, m[id], m'[id]);
    }
    assert m.Keys == m'.Keys;
    assert m == m';
  }

  // ── cycles ─────────────────────────────────────────────────────────────────

  /** A walk along edges that ends where it began. */
  ghost predicate IsClosedWalk(g: Graph, p: seq<string>) {
    && |p| >= 2 && p[0] == p[|p| - 1]
    && forall i :: 0 <= i < |p| - 1 ==> Edge(p[i], p[i + 1]) in g.edges
  }

  ghost predicate HasCycle(g: Graph) {
    exists p :: IsClosedWalk(g, p)
  }

  lemma {:induction false} WalkMovesForward(g: Graph, order: seq<string>, p: seq<string>, from: nat, to: nat)
    requires IsTopological(g, order)
    requires |p| >= 2 && forall i :: 0 <= i < |p| - 1 ==> Edge(p[i], p[i + 1]) in g.edges
    requires 1 <= |p| && to < |order| && order[to] == p[|p| - 1]
    requires from < |order| && order[from] == p[0]
    ensures from < to
    decreases |p|
  {
    var n := |p| - 1;
    var e := Edge(p[n - 1], p[n]);
    assert e in g.edges;
    var mid :| 0 <= mid < to && order[mid] == p[n - 1];
    if n > 1 {
      WalkMovesForward(g, order, p[..n], from, mid);
    }
  }

  lemma OrderedMeansAcyclic(g: Graph, order: seq<string>)
    requires IsTopological(g, order)
    requires WellFormed(g)
    ensures !HasCycle(g)
  {
    forall p | IsClosedWalk(g, p) ensures false {
      assert Edge(p[0], p[1]) in g.edges;
      assert p[0] in (set x | x in order);
      var k :| 0 <= k < |order| && order[k] == p[0];
      WalkMovesForward(g, order, p, k, k);
    }
  }
}
