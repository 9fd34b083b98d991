/**
 Which cycle an export reports: the first back edge of the depth-first search that
 takes starts and successors in sorted order. Specification only, on sets, so that
 nothing about a listing's order or repetitions can show in it.
 */
module FirstCycle {
  import opened BeadGraph
  import opened Ordering

  /** What each waiting bead blocks among the waiting ones. */
  type Links = map<string, set<string>>

  datatype Outcome = Found(walk: seq<string>) | Done(visited: set<string>)

  function Elems(s: seq<string>): set<string> {
    set x | x in s
  }

  ghost predicate Closed(links: Links) {
    forall x, y :: x in links && y in links[x] ==> y in links
  }

  ghost predicate IsLeast(s: set<string>, x: string) {
    x in s && forall y :: y in s && y != x ==> StrLess(x, y)
  }

  lemma {:induction false} LeastExists(s: set<string>)
    requires s != {}
    ensures exists x :: IsLeast(s, x)
    decreases |s|
  {
    var x :| x in s;
    var rest := s - {x};
    if rest == {} {
      assert s == {x};
      assert IsLeast(s, x);
    } else {
      LeastExists(rest);
      var y :| IsLeast(rest, y);
      StrTrichotomy(x, y);
      if StrLess(x, y) {
        forall z | z in s && z != x ensures StrLess(x, z) {
          if z != y { StrTransitive(x, y, z); }
        }
        assert IsLeast(s, x);
      } else {
        assert IsLeast(s, y);
      }
    }
  }

  ghost function Least(s: set<string>): (x: string)
    requires s != {}
    ensures IsLeast(s, x)
  {
    LeastExists(s);
    var x :| IsLeast(s, x);
    x
  }

  lemma LeastIs(s: set<string>, x: string)
    requires IsLeast(s, x)
    ensures Least(s) == x
  {
    StrTrichotomy(Least(s), x);
  }

  /** The stack from `n` on, and `n` again. */
  function WalkFrom(stack: seq<string>, n: string): seq<string>
    requires n in stack
  {
    if stack[0] == n then stack + [n] else WalkFrom(stack[1..], n)
  }

  lemma {:induction false} WalkFromFirst(stack: seq<string>, n: string, at: nat)
    requires at < |stack| && stack[at] == n && n !in stack[..at]
    ensures WalkFrom(stack, n) == stack[at..] + [n]
  {
    if at == 0 {
      assert stack[0..] == stack;
    } else {
      assert stack[0] == stack[..at][0];
      assert stack[1..][..at - 1] == stack[..at][1..];
      WalkFromFirst(stack[1..], n, at - 1);
      assert stack[1..][at - 1..] == stack[at..];
    }
  }

  /** The search of one node below `stack`. */
  ghost function SearchNode(links: Links, stack: seq<string>, visited: set<string>, node: string): (o: Outcome)
    requires Closed(links) && node in links && node !in stack && node !in visited
    ensures o.Done? ==> visited + {node} <= o.visited
    decreases links.Keys - visited - Elems(stack), 0
  {
    assert Elems(stack + [node]) == Elems(stack) + {node};
    match SearchAll(links, stack + [node], visited, links[node])
    case Found(walk) => Found(walk)
    case Done(seen) => Done(seen + {node})
  }

  /** The search of a set of nodes in order, each below `stack`. */
  ghost function SearchAll(links: Links, stack: seq<string>, visited: set<string>, todo: set<string>): (o: Outcome)
    requires Closed(links) && todo <= links.Keys
    ensures o.Done? ==> visited <= o.visited
    decreases links.Keys - visited - Elems(stack), |todo|
  {
    if todo == {} then Done(visited)
    else
      var n := Least(todo);
      if n in stack then Found(WalkFrom(stack, n))
      else if n in visited then SearchAll(links, stack, visited, todo - {n})
      else
        match SearchNode(links, stack, visited, n)
        case Found(walk) => Found(walk)
        case Done(seen) =>
          assert links.Keys - seen - Elems(stack) < links.Keys - visited - Elems(stack) by {
            assert n in links.Keys - visited - Elems(stack);
          }
          SearchAll(links, stack, seen, todo - {n})
  }

  /** What a sorted list, repeats allowed, has behind its first `k` entries that is not among them. */
  function Pending(next: seq<string>, k: nat): (r: set<string>)
    requires k <= |next|
    ensures r <= Elems(next)
  {
    set x | x in next && x !in next[..k]
  }

  /** How a loop over a sorted list goes through the set of its entries. */
  lemma SearchNext(links: Links, stack: seq<string>, visited: set<string>, next: seq<string>, k: nat)
    requires Closed(links) && Elems(next) <= links.Keys && Sorted(next, STRING_ORDER) && k < |next|
    requires visited !! Elems(stack) && forall j :: 0 <= j < k ==> next[j] in visited
    ensures next[k] in stack ==> SearchAll(links, stack, visited, Pending(next, k)) == Found(WalkFrom(stack, next[k]))
    ensures next[k] in visited ==>
      SearchAll(links, stack, visited, Pending(next, k)) == SearchAll(links, stack, visited, Pending(next, k + 1))
    ensures next[k] !in stack && next[k] !in visited ==>
      SearchAll(links, stack, visited, Pending(next, k))
        == match SearchNode(links, stack, visited, next[k])
           case Found(walk) => Found(walk)
           case Done(seen) => SearchAll(links, stack, seen, Pending(next, k + 1))
  {
    PendingNext(next, k);
    if next[k] in next[..k] {
      assert next[k] in visited;
    } else {
      LeastIs(Pending(next, k), next[k]);
    }
  }

  lemma PendingNext(next: seq<string>, k: nat)
    requires Sorted(next, STRING_ORDER) && k < |next|
    ensures next[k] in next[..k] ==> Pending(next, k + 1) == Pending(next, k)
    ensures next[k] !in next[..k] ==>
      IsLeast(Pending(next, k), next[k]) && Pending(next, k + 1) == Pending(next, k) - {next[k]}
  {
    assert next[..k + 1] == next[..k] + [next[k]];
    forall y | y in Pending(next, k) && y != next[k] ensures StrLess(next[k], y) {
      var i :| 0 <= i < |next| && next[i] == y;
      assert i >= k;
      assert !STRING_ORDER(next[i], next[k]);
      StrTrichotomy(next[k], y);
    }
  }

  /** A node's search closes: its own node joins what was visited. */
  function Closing(o: Outcome, node: string): Outcome {
    if o.Found? then o else Done(o.visited + {node})
  }

  lemma SearchNodeStarts(links: Links, stack: seq<string>, visited: set<string>, node: string, next: seq<string>)
    requires Closed(links) && node in links && node !in stack && node !in visited
    requires forall y :: y in next <==> y in links[node]
    ensures SearchNode(links, stack, visited, node) == Closing(SearchAll(links, stack + [node], visited, Pending(next, 0)), node)
    ensures Elems(next) <= links.Keys
  {
    assert Pending(next, 0) == links[node];
  }

  lemma NothingPending(links: Links, stack: seq<string>, visited: set<string>, next: seq<string>)
    requires Closed(links)
    ensures Pending(next, |next|) == {} && SearchAll(links, stack, visited, {}) == Done(visited)
  {
    assert next[..|next|] == next;
  }

  // ── the cycle of a graph ───────────────────────────────────────────────────

  ghost function LinksAmong(g: Graph, waiting: set<string>): (links: Links)
    ensures Closed(links) && links.Keys == waiting
  {
    map x | x in waiting :: set e | e in g.edges && e.from == x && e.to in waiting :: e.to
  }

  /** Emitting has come to a stop: beads are waiting, and none of them is ready. */
  ghost predicate IsStall(g: Graph, emitted: seq<string>) {
    && IsGreedy(g, emitted) && Waiting(g, emitted) != {}
    && forall id :: id in Waiting(g, emitted) ==> !Ready(g, Waiting(g, emitted), id)
  }

  /** The cycle reported for a graph: what the search over the beads of a stall finds first. */
  ghost predicate IsReported(g: Graph, cycle: seq<string>) {
    exists emitted :: IsStall(g, emitted) &&
      SearchAll(LinksAmong(g, Waiting(g, emitted)), [], {}, Waiting(g, emitted)) == Found(cycle)
  }

  /** Whatever the order of emission, a stall leaves the same beads waiting. */
  lemma StallIsUnique(g: Graph, p: seq<string>, q: seq<string>)
    requires IsStall(g, p) && IsStall(g, q)
    ensures Waiting(g, p) == Waiting(g, q)
  {
    hide Ready, IsGreedy, Waiting;
    NoneEmittedIsStuck(g, p, q, |q|);
    NoneEmittedIsStuck(g, q, p, |p|);
    StaysWaiting(g, p, q);
    StaysWaiting(g, q, p);
  }

  lemma StaysWaiting(g: Graph, p: seq<string>, q: seq<string>)
    requires forall k :: 0 <= k < |q| ==> q[k] !in Waiting(g, p)
    ensures Waiting(g, p) <= Waiting(g, q)
  {
  }

  lemma {:induction false} NoneEmittedIsStuck(g: Graph, p: seq<string>, q: seq<string>, n: nat)
    requires IsStall(g, p) && IsGreedy(g, q) && n <= |q|
    ensures forall k :: 0 <= k < n ==> q[k] !in Waiting(g, p)
  {
    hide Ready, IsGreedy, IsBestReady, IsStall, Waiting;
    if n > 0 {
      NoneEmittedIsStuck(g, p, q, n - 1);
      OneMoreIsNotStuck(g, p, q, n - 1);
    }
  }

  /** The next bead emitted was ready, so nothing left waiting by a stall blocks it, while each bead of a stall is blocked. */
  lemma OneMoreIsNotStuck(g: Graph, p: seq<string>, q: seq<string>, n: nat)
    requires IsStall(g, p) && IsGreedy(g, q) && n < |q|
    requires forall k :: 0 <= k < n ==> q[k] !in Waiting(g, p)
    ensures q[n] !in Waiting(g, p)
  {
    assert IsBestReady(g, Waiting(g, q[..n]), q[n]);
    assert Waiting(g, p) <= Waiting(g, q[..n]);
    LargerIsNotReady(g, Waiting(g, p), Waiting(g, q[..n]), q[n]);
  }

  lemma LargerIsNotReady(g: Graph, waiting: set<string>, larger: set<string>, x: string)
    requires waiting <= larger
    ensures Ready(g, larger, x) ==> Ready(g, waiting, x)
  {
  }

  /** So a graph has one reported cycle. */
  lemma ReportedIsUnique(g: Graph, a: seq<string>, b: seq<string>)
    requires IsReported(g, a) && IsReported(g, b)
    ensures a == b
  {
    hide SearchAll, LinksAmong, IsStall;
    var p :| IsStall(g, p) && SearchAll(LinksAmong(g, Waiting(g, p)), [], {}, Waiting(g, p)) == Found(a);
    var q :| IsStall(g, q) && SearchAll(LinksAmong(g, Waiting(g, q)), [], {}, Waiting(g, q)) == Found(b);
    StallIsUnique(g, p, q);
  }
}
