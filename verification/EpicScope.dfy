/**
 The beads of an epic: `collectSubtreeIds` of src/cli/export.ts from parent pointers,
 and `collectEpicScope` of src/cli/drain.ts from the tracker's reads.
 */
module EpicScope {
  import opened BeadGraph
  import opened Prelude

  // ── reachability ───────────────────────────────────────────────────────────

  /** A chain of child links from `p[0]` to its last element. */
  ghost predicate IsChain(links: set<(string, string)>, p: seq<string>) {
    p != [] && forall i :: 0 <= i < |p| - 1 ==> (p[i], p[i + 1]) in links
  }

  ghost predicate Reaches(links: set<(string, string)>, root: string, x: string) {
    exists p :: IsChain(links, p) && p[0] == root && p[|p| - 1] == x
  }

  lemma ReachesSelf(links: set<(string, string)>, root: string)
    ensures Reaches(links, root, root)
  {
    assert IsChain(links, [root]);
  }

  lemma ReachesChild(links: set<(string, string)>, root: string, x: string, child: string)
    requires Reaches(links, root, x) && (x, child) in links
    ensures Reaches(links, root, child)
  {
    var p :| IsChain(links, p) && p[0] == root && p[|p| - 1] == x;
    var q := p + [child];
    assert IsChain(links, q) && q[0] == root && q[|q| - 1] == child;
  }

  ghost predicate IsClosed(links: set<(string, string)>, scope: set<string>) {
    forall l :: l in links && l.0 in scope ==> l.1 in scope
  }

  lemma {:induction false} ClosedHoldsChain(links: set<(string, string)>, scope: set<string>, p: seq<string>)
    requires IsChain(links, p) && p[0] in scope && IsClosed(links, scope)
    ensures p[|p| - 1] in scope
    decreases |p|
  {
    if |p| > 1 {
      assert (p[0], p[1]) in links;
      ClosedHoldsChain(links, scope, p[1..]);
    }
  }

  lemma ClosedHoldsReachable(links: set<(string, string)>, scope: set<string>, root: string)
    requires IsClosed(links, scope) && root in scope
    ensures forall x :: Reaches(links, root, x) ==> x in scope
  {
    forall x | Reaches(links, root, x) ensures x in scope {
      var p :| IsChain(links, p) && p[0] == root && p[|p| - 1] == x;
      ClosedHoldsChain(links, scope, p);
    }
  }

  // ── the epic's subtree from the parent pointers ────────────────────────────

  /** An empty parent is the same as none (`if (b.parent)`). */
  predicate HasParent(b: Bead) {
    b.parent.Some? && b.parent.value != ""
  }

  function ParentLinks(beads: seq<Bead>): set<(string, string)> {
    set b | b in beads && HasParent(b) :: (b.parent.value, b.id)
  }

  /** `x` is `root`, or the id of a bead whose parent field names a descendant of `root`. */
  ghost predicate IsDescendant(beads: seq<Bead>, root: string, x: string) {
    exists p: seq<string> :: IsLineage(beads, p) && p[0] == root && p[|p| - 1] == x
  }

  ghost predicate IsLineage(beads: seq<Bead>, p: seq<string>) {
    && p != []
    && forall i :: 0 <= i < |p| - 1 ==> IsParent(beads, p[i], p[i + 1])
  }

  ghost predicate IsParent(beads: seq<Bead>, parent: string, child: string) {
    parent != "" && exists b :: b in beads && b.parent == Some(parent) && b.id == child
  }

  lemma LinkIsParent(beads: seq<Bead>, parent: string, child: string)
    ensures (parent, child) in ParentLinks(beads) <==> IsParent(beads, parent, child)
  {
  }

  lemma LinksAreLineage(beads: seq<Bead>, p: seq<string>)
    ensures IsChain(ParentLinks(beads), p) <==> IsLineage(beads, p)
  {
    forall parent, child { LinkIsParent(beads, parent, child); }
  }

  lemma ReachedAreDescendants(beads: seq<Bead>, root: string, x: string)
    ensures Reaches(ParentLinks(beads), root, x) <==> IsDescendant(beads, root, x)
  {
    forall p ensures IsChain(ParentLinks(beads), p) <==> IsLineage(beads, p) {
      LinksAreLineage(beads, p);
    }
  }

  function Listed(lists: map<string, seq<string>>, id: string): seq<string> {
    if id in lists then lists[id] else []
  }

  method ChildrenOf(beads: seq<Bead>) returns (childrenOf: map<string, seq<string>>)
    ensures forall p, c :: c in Listed(childrenOf, p) <==> (p, c) in ParentLinks(beads)
  {
    childrenOf := map[];
    for i := 0 to |beads|
      invariant forall p, c :: c in Listed(childrenOf, p) <==> (p, c) in ParentLinks(beads[..i])
    {
      var b := beads[i];
      ghost var before := childrenOf;
      assert beads[..i + 1] == beads[..i] + [b];
      if HasParent(b) {
        childrenOf := childrenOf[b.parent.value := Listed(childrenOf, b.parent.value) + [b.id]];
      }
      assert ParentLinks(beads[..i + 1]) == ParentLinks(beads[..i]) + if HasParent(b) then {(b.parent.value, b.id)} else {};
    }
    assert beads[..|beads|] == beads;
  }

  /** Appends to the queue the children not yet in scope, as both walks do. */
  method Visit(scope: set<string>, queue: seq<string>, children: seq<string>)
    returns (scope': set<string>, queue': seq<string>)
    requires forall q :: q in queue ==> q in scope
    ensures scope' == scope + set c | c in children
    ensures queue <= queue' && forall q :: q in queue' ==> q in scope'
    ensures forall x :: x in scope' && x !in scope ==> x in queue'
    ensures scope' == scope ==> queue' == queue
  {
    scope', queue' := scope, queue;
    for i := 0 to |children|
      invariant scope' == scope + set c | c in children[..i]
      invariant queue <= queue' && forall q :: q in queue' ==> q in scope'
      invariant forall x :: x in scope' && x !in scope ==> x in queue'
      invariant scope' == scope ==> queue' == queue
    {
      assert children[..i + 1] == children[..i] + [children[i]];
      if children[i] !in scope' {
        scope', queue' := scope' + {children[i]}, queue' + [children[i]];
      }
    }
    assert children[..|children|] == children;
  }

  /** What both walks keep: everything found is reachable, and only queued ids may have unseen children. */
  ghost predicate Searching(links: set<(string, string)>, root: string, scope: set<string>, queue: seq<string>) {
    && root in scope && (forall q :: q in queue ==> q in scope)
    && (forall x :: x in scope ==> Reaches(links, root, x))
    && (forall l :: l in links && l.0 in scope && l.0 !in queue ==> l.1 in scope)
  }

  lemma SearchStep(links: set<(string, string)>, root: string, scope: set<string>, queue: seq<string>,
                   children: seq<string>, scope': set<string>, queue': seq<string>)
    requires queue != [] && Searching(links, root, scope, queue)
    requires forall c :: c in children <==> (queue[0], c) in links
    requires scope' == scope + set c | c in children
    requires queue[1..] <= queue' && forall q :: q in queue' ==> q in scope'
    requires forall x :: x in scope' && x !in scope ==> x in queue'
    ensures Searching(links, root, scope', queue')
  {
    forall x | x in scope' ensures Reaches(links, root, x) {
      if x !in scope { ReachesChild(links, root, queue[0], x); }
    }
    forall l | l in links && l.0 in scope' && l.0 !in queue' ensures l.1 in scope' {
      assert l == (l.0, l.1);
      assert queue == [queue[0]] + queue[1..];
    }
  }

  lemma SearchDone(links: set<(string, string)>, root: string, scope: set<string>)
    requires Searching(links, root, scope, [])
    ensures forall x :: x in scope <==> Reaches(links, root, x)
  {
    ClosedHoldsReachable(links, scope, root);
  }

  method CollectSubtreeIds(beads: seq<Bead>, epicId: string) returns (scope: set<string>)
    ensures forall x :: x in scope <==> Reaches(ParentLinks(beads), epicId, x)
    ensures forall x :: x in scope <==> IsDescendant(beads, epicId, x)
  {
    ghost var links := ParentLinks(beads);
    ghost var universe := {epicId} + set b | b in beads :: b.id;
    var childrenOf := ChildrenOf(beads);
    var queue := [epicId];
    scope := {epicId};
    ReachesSelf(links, epicId);
    while queue != []
      invariant Searching(links, epicId, scope, queue)
      invariant scope <= universe
      decreases universe - scope, |queue|
    {
      var children := Listed(childrenOf, queue[0]);
      ghost var s0, q0 := scope, queue;
      scope, queue := Visit(scope, queue[1..], children);
      SearchStep(links, epicId, s0, q0, children, scope, queue);
    }
    SearchDone(links, epicId, scope);
    forall x ensures Reaches(links, epicId, x) <==> IsDescendant(beads, epicId, x) {
      ReachedAreDescendants(beads, epicId, x);
    }
  }

  // ── the epic's subtree from the tracker's reads ────────────────────────────

  /** What a drain's walk sees: a failed read contributes no children. */
  function ReadLinks(answers: map<string, Option<seq<string>>>): set<(string, string)> {
    set p, c | p in answers && c in answers[p].GetOr([]) :: (p, c)
  }

  function ReadChildren(answers: map<string, Option<seq<string>>>, parent: string): seq<string> {
    if parent in answers then answers[parent].GetOr([]) else []
  }

  method CollectEpicScope(answers: map<string, Option<seq<string>>>, epicId: string) returns (scope: set<string>)
    ensures forall x :: x in scope <==> Reaches(ReadLinks(answers), epicId, x)
  {
    ghost var links := ReadLinks(answers);
    ghost var universe := {epicId} + set l | l in links :: l.1;
    var queue := [epicId];
    scope := {epicId};
    ReachesSelf(links, epicId);
    while queue != []
      invariant Searching(links, epicId, scope, queue)
      invariant scope <= universe
      decreases universe - scope, |queue|
    {
      var children := ReadChildren(answers, queue[0]);
      ghost var s0, q0 := scope, queue;
      assert forall c :: c in children <==> (queue[0], c) in links;
      assert forall c :: c in children ==> (queue[0], c).1 in universe;
      scope, queue := Visit(scope, queue[1..], children);
      SearchStep(links, epicId, s0, q0, children, scope, queue);
    }
    SearchDone(links, epicId, scope);
  }

  /** The drain's scope is the export's when the reads list the beads' own children. */
  lemma ScopesAgree(beads: seq<Bead>, answers: map<string, Option<seq<string>>>, epicId: string,
                    exported: set<string>, drained: set<string>)
    requires forall p, c :: c in ReadChildren(answers, p) <==> (p, c) in ParentLinks(beads)
    requires forall x :: x in exported <==> Reaches(ParentLinks(beads), epicId, x)
    requires forall x :: x in drained <==> Reaches(ReadLinks(answers), epicId, x)
    ensures exported == drained
  {
    forall p, c ensures (p, c) in ReadLinks(answers) <==> (p, c) in ParentLinks(beads) {
      assert (p, c) in ReadLinks(answers) <==> c in ReadChildren(answers, p);
    }
    forall l ensures l in ReadLinks(answers) <==> l in ParentLinks(beads) {
      assert l == (l.0, l.1);
    }
    assert ReadLinks(answers) == ParentLinks(beads);
  }
}
