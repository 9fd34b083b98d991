/**
 `findCycle` of src/cli/export.ts: the depth-first search over a mutable stack and
 visited set that names a cycle when Kahn's algorithm stalls.
 */
module FindCycle {
  import opened BeadGraph
  import opened FirstCycle
  import opened Ordering
  import opened Prelude

  /** `blocks.get(id) ?? []` */
  function Blocked(blocks: map<string, seq<string>>, id: string): seq<string> {
    if id in blocks then blocks[id] else []
  }

  /** `[...ids].sort()` */
  method SortedIds(ids: set<string>) returns (r: seq<string>)
    ensures forall x :: x in r <==> x in ids
    ensures Sorted(r, STRING_ORDER)
  {
    var todo, s := ids, [];
    while todo != {}
      invariant todo <= ids && forall x :: x in s <==> x in ids - todo
    {
      var x :| x in todo;
      todo, s := todo - {x}, s + [x];
    }
    StringOrderIsWeakOrder();
    r := SortBy(s, STRING_ORDER);
    assert forall x :: x in r <==> x in multiset(r);
    assert forall x :: x in s <==> x in multiset(s);
  }

  ghost predicate LeadsIn(remaining: set<string>, blocks: map<string, seq<string>>, x: string, y: string) {
    y in Blocked(blocks, x) && y in remaining
  }

  /** The links the search follows, as sets. */
  function LinksIn(remaining: set<string>, blocks: map<string, seq<string>>): (links: Links)
    ensures Closed(links) && links.Keys == remaining
  {
    map x | x in remaining :: set y | y in Blocked(blocks, x) && y in remaining
  }

  /** A walk inside `remaining` that returns to its start. */
  ghost predicate ReturnsIn(remaining: set<string>, blocks: map<string, seq<string>>, p: seq<string>) {
    && |p| >= 2 && p[0] == p[|p| - 1] && p[0] in remaining
    && forall i :: 0 <= i < |p| - 1 ==> LeadsIn(remaining, blocks, p[i], p[i + 1])
  }

  /** The closure variables of `findCycle`'s search. */
  class CycleSearch {
    const remaining: set<string>
    const blocks: map<string, seq<string>>
    var onStack: seq<string>
    var inStack: set<string>
    var visited: set<string>
    /** The visited nodes in the order they were finished. */
    ghost var finished: seq<string>

    constructor (remaining: set<string>, blocks: map<string, seq<string>>)
      ensures this.remaining == remaining && this.blocks == blocks
      ensures Valid() && onStack == [] && visited == {}
    {
      this.remaining, this.blocks := remaining, blocks;
      onStack, inStack, visited, finished := [], {}, {}, [];
    }

    ghost predicate Leads(x: string, y: string) {
      LeadsIn(remaining, blocks, x, y)
    }

    ghost predicate Valid()
      reads this
    {
      && NoDup(onStack) && inStack == (set x | x in onStack) && inStack <= remaining
      && (forall i :: 0 <= i < |onStack| - 1 ==> Leads(onStack[i], onStack[i + 1]))
      && visited == (set x | x in finished) && visited <= remaining && visited !! inStack
      && NoDup(finished)
      && (forall i, y :: 0 <= i < |finished| && Leads(finished[i], y) ==> y in finished[..i])
    }

    /** `(blocks.get(node) ?? []).filter(n => remaining.has(n)).sort()` */
    method Successors(node: string) returns (next: seq<string>)
      ensures forall n :: n in next <==> Leads(node, n)
      ensures Sorted(next, STRING_ORDER)
    {
      var kept := Kept(Blocked(blocks, node));
      StringOrderIsWeakOrder();
      next := SortBy(kept, STRING_ORDER);
      assert forall x :: x in next <==> x in multiset(next);
      assert forall x :: x in kept <==> x in multiset(kept);
    }

    function Kept(list: seq<string>): (r: seq<string>)
      ensures forall x :: x in r <==> x in list && x in remaining
    {
      if list == [] then [] else (if list[0] in remaining then [list[0]] else []) + Kept(list[1..])
    }

    method Dfs(node: string) returns (found: Option<seq<string>>)
      requires Valid() && node in remaining && node !in inStack && node !in visited
      requires onStack != [] ==> Leads(onStack[|onStack| - 1], node)
      modifies this
      ensures found.Some? ==> ReturnsIn(remaining, blocks, found.value)
      ensures found.None? ==>
                && Valid() && onStack == old(onStack) && inStack == old(inStack)
                && old(visited) + {node} <= visited
      ensures SearchNode(LinksIn(remaining, blocks), old(onStack), old(visited), node)
           == if found.Some? then Found(found.value) else Done(visited)
      decreases remaining - visited - inStack
    {
      hide Valid, ReturnsIn, SearchNode, SearchAll, Pending, WalkFrom;
      ghost var links, stack0, visited0 := LinksIn(remaining, blocks), onStack, visited;
      StackIsSet();
      Push(node);
      label Pushed:
      ghost var stack := onStack;
      var next := Successors(node);
      SearchNodeStarts(links, stack0, visited0, node, next);
      for k := 0 to |next|
        invariant Valid() && onStack == stack && inStack == old@Pushed(inStack)
        invariant visited0 <= visited
        invariant forall j :: 0 <= j < k ==> next[j] in visited
        invariant SearchNode(links, stack0, visited0, node) == Closing(SearchAll(links, stack, visited, Pending(next, k)), node)
      {
        var n := next[k];
        assert n in next && Leads(node, n);
        StackIsSet();
        SearchNext(links, stack, visited, next, k);
        if n in inStack {
          var walk := WalkBack(node, n);
          return Some(walk);
        }
        if n !in visited {
          found := Dfs(n);
          if found.Some? { return; }
        }
      }
      NothingPending(links, stack, visited, next);
      Finish(node);
      found := None;
    }

    lemma StackIsSet()
      requires Valid()
      ensures inStack == Elems(onStack) && visited !! Elems(onStack) && inStack <= remaining
    {
    }

    /** `onStack.push(node); inStack.add(node)` */
    method Push(node: string)
      requires Valid() && node in remaining && node !in inStack && node !in visited
      requires onStack != [] ==> Leads(onStack[|onStack| - 1], node)
      modifies this`onStack, this`inStack
      ensures Valid() && onStack == old(onStack) + [node] && inStack == old(inStack) + {node}
    {
      onStack, inStack := onStack + [node], inStack + {node};
    }

    /** `[...onStack.slice(onStack.indexOf(n)), n]` */
    method WalkBack(node: string, n: string) returns (walk: seq<string>)
      requires Valid() && onStack != [] && onStack[|onStack| - 1] == node && n in inStack && Leads(node, n)
      ensures ReturnsIn(remaining, blocks, walk) && walk == WalkFrom(onStack, n)
    {
      var at := IndexOf(onStack, n);
      WalkFromFirst(onStack, n, at);
      walk := onStack[at..] + [n];
      BackEdgeClosesWalk(at, n);
    }

    /** Pops `node`, all of whose successors are visited. */
    method Finish(node: string)
      requires Valid() && onStack != [] && onStack[|onStack| - 1] == node
      requires forall y :: Leads(node, y) ==> y in visited
      modifies this
      ensures Valid() && onStack == old(onStack)[..|old(onStack)| - 1] && inStack == old(inStack) - {node}
      ensures visited == old(visited) + {node}
    {
      assert node in inStack;
      forall y | Leads(node, y) ensures y in finished { assert y in visited; }
      onStack, inStack, visited := onStack[..|onStack| - 1], inStack - {node}, visited + {node};
      ghost var was := finished;
      finished := finished + [node];
      forall i, y | 0 <= i < |finished| && Leads(finished[i], y) ensures y in finished[..i] {
        assert finished[..i] == was[..i];
        assert i == |was| ==> was[..i] == was;
      }
    }

    lemma BackEdgeClosesWalk(at: nat, n: string)
      requires Valid() && at < |onStack| && onStack[at] == n && Leads(onStack[|onStack| - 1], n)
      ensures ReturnsIn(remaining, blocks, onStack[at..] + [n])
    {
      var p := onStack[at..] + [n];
      forall i | 0 <= i < |p| - 1 ensures Leads(p[i], p[i + 1]) {
        assert p[i] == onStack[at + i];
        if i + 1 < |p| - 1 { assert p[i + 1] == onStack[at + i + 1]; }
      }
      assert onStack[at] in inStack;
    }
  }

  method IndexOf(s: seq<string>, x: string) returns (i: nat)
    requires x in s
    ensures i < |s| && s[i] == x && x !in s[..i]
  {
    i := 0;
    while s[i] != x
      invariant i < |s| && x in s[i..] && x !in s[..i]
      decreases |s| - i
    {
      i := i + 1;
    }
  }

  /** Every node once, each after everything it leads to: what a search that never returns leaves. */
  ghost predicate IsFinishingOrder(remaining: set<string>, blocks: map<string, seq<string>>, f: seq<string>) {
    && NoDup(f) && (set x | x in f) == remaining
    && forall i, y :: 0 <= i < |f| && LeadsIn(remaining, blocks, f[i], y) ==> y in f[..i]
  }

  /**
   The depth-first search from each start in sorted order. The fallback, the
   sorted nodes, is only reached when a finishing order exists.
   */
  method FindCycle(remaining: set<string>, blocks: map<string, seq<string>>) returns (path: seq<string>)
    ensures match SearchAll(LinksIn(remaining, blocks), [], {}, remaining)
            case Found(cycle) => path == cycle && ReturnsIn(remaining, blocks, path)
            case Done(_) => Sorted(path, STRING_ORDER) && exists f :: IsFinishingOrder(remaining, blocks, f)
  {
    hide SearchNode, SearchAll, ReturnsIn, IsFinishingOrder, Pending;
    var starts := SortedIds(remaining);
    var search := new CycleSearch(remaining, blocks);
    ghost var links := LinksIn(remaining, blocks);
    EverythingPending(remaining, starts);
    for i := 0 to |starts|
      invariant search.Valid() && search.onStack == []
      invariant forall j :: 0 <= j < i ==> starts[j] in search.visited
      invariant SearchAll(links, [], {}, remaining) == SearchAll(links, [], search.visited, Pending(starts, i))
    {
      SearchNext(links, [], search.visited, starts, i);
      if starts[i] !in search.visited {
        var found := search.Dfs(starts[i]);
        if found.Some? { return found.value; }
      }
    }
    NothingPending(links, [], search.visited, starts);
    path := starts;
    FinishedAll(search);
  }

  lemma FinishedAll(search: CycleSearch)
    requires search.Valid() && search.visited == search.remaining
    ensures IsFinishingOrder(search.remaining, search.blocks, search.finished)
  {
  }

  lemma EverythingPending(remaining: set<string>, starts: seq<string>)
    requires forall x :: x in starts <==> x in remaining
    ensures Pending(starts, 0) == remaining && Elems(starts) == remaining
  {
  }
}
