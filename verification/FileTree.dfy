/**
 A file system as far as src/kshetra/snapshot.ts uses it: trees copied, moved
 and removed whole.
 */
module FileTree {

  import opened Prelude

  type Path = seq<string>

  /** One Kshetra's entry of state.json: the latches restore resets, and every other field. */
  datatype Slice = Slice(paused: bool, requiresManualResume: bool, stuck: Option<string>, rest: map<string, string>)

  datatype Content = Bytes(bytes: string) | SliceJson(slice: Option<Slice>)

  datatype Node = File(content: Content) | Dir

  type Fs = map<Path, Node>

  function Look(fs: Fs, p: Path): Option<Node> {
    if p in fs then Some(fs[p]) else None
  }

  type Tree = imap<Path, Node>

  /** Everything at and below `p`, by its path from `p`. */
  ghost function Subtree(fs: Fs, p: Path): Tree {
    imap r: Path | p + r in fs :: fs[p + r]
  }

  lemma SameSubtree(a: Fs, p: Path, b: Fs, q: Path)
    requires forall r :: Look(a, p + r) == Look(b, q + r)
    ensures Subtree(a, p) == Subtree(b, q)
  {
    forall r ensures r in Subtree(a, p) <==> r in Subtree(b, q) {
      assert Look(a, p + r) == Look(b, q + r);
    }
    forall r | r in Subtree(a, p) ensures Subtree(a, p)[r] == Subtree(b, q)[r] {
      assert Look(a, p + r) == Look(b, q + r);
    }
  }

  lemma SubtreeLook(a: Fs, p: Path, b: Fs, q: Path, r: Path)
    requires Subtree(a, p) == Subtree(b, q)
    ensures Look(a, p + r) == Look(b, q + r)
  {
    assert r in Subtree(a, p) <==> r in Subtree(b, q);
  }

  lemma RootLook(fs: Fs, p: Path)
    ensures [] in Subtree(fs, p) <==> p in fs
    ensures p in fs ==> Subtree(fs, p)[[]] == fs[p]
  {
    assert p + [] == p;
  }

  /** Neither path is at or below the other. */
  predicate Apart(p: Path, q: Path) {
    !(p <= q) && !(q <= p)
  }

  /** Outside of `d`, of `e` and of what is below them nothing changes, but for new directories above them. */
  ghost predicate Touches(before: Fs, after: Fs, d: Path, e: Path) {
    forall q: Path :: !(d <= q) && !(e <= q) ==>
      Look(after, q) == Look(before, q) || (q !in before && Look(after, q) == Some(Dir) && (q <= d || q <= e))
  }

  ghost predicate ChangedOnlyAt(before: Fs, after: Fs, d: Path) {
    Touches(before, after, d, d)
  }

  /** One change after another. */
  lemma TouchesBoth(before: Fs, mid: Fs, after: Fs, d: Path, e: Path)
    requires Touches(before, mid, d, e) || ChangedOnlyAt(before, mid, d) || ChangedOnlyAt(before, mid, e)
    requires Touches(mid, after, d, e) || ChangedOnlyAt(mid, after, d) || ChangedOnlyAt(mid, after, e)
    ensures Touches(before, after, d, e)
  {
    forall q: Path | !(d <= q) && !(e <= q)
      ensures Look(after, q) == Look(before, q) || (q !in before && Look(after, q) == Some(Dir) && (q <= d || q <= e))
    {
      assert Look(mid, q) == Look(before, q) || (q !in before && Look(mid, q) == Some(Dir) && (q <= d || q <= e));
      assert Look(after, q) == Look(mid, q) || (q !in mid && Look(after, q) == Some(Dir) && (q <= d || q <= e));
    }
  }

  lemma PrefixesCompare(a: Path, b: Path, q: Path)
    ensures a <= q && b <= q ==> a <= b || b <= a
  {
    assert a <= q && b <= q && |a| <= |b| ==> b[..|a|] == q[..|a|] == a;
    assert a <= q && b <= q && |b| <= |a| ==> a[..|b|] == q[..|b|] == b;
  }

  lemma PrefixOfLonger(p: Path, r: Path, d: Path)
    ensures p <= p + r && (p + r <= d ==> p <= d)
  {
    assert p + r <= d ==> d[..|p|] == d[..|p + r|][..|p|] == p;
  }

  lemma ApartBelow(p: Path, d: Path, r: Path)
    requires Apart(p, d)
    ensures Apart(p + r, d)
  {
    PrefixesCompare(p, d, p + r);
    PrefixOfLonger(p, r, d);
  }

  /** A change at `d` and `e` leaves a tree apart from both as it was. */
  lemma KeepsApart(before: Fs, after: Fs, d: Path, e: Path, p: Path)
    requires Touches(before, after, d, e) && Apart(p, d) && Apart(p, e)
    ensures Subtree(after, p) == Subtree(before, p)
  {
    forall r ensures Look(after, p + r) == Look(before, p + r) {
      ApartBelow(p, d, r);
      ApartBelow(p, e, r);
    }
    SameSubtree(after, p, before, p);
  }

  /** A tree fixes the trees inside it, wherever it stands. */
  lemma SubtreeWithin(a: Fs, p: Path, b: Fs, q: Path, s: Path)
    requires Subtree(a, p) == Subtree(b, q)
    ensures Subtree(a, p + s) == Subtree(b, q + s)
  {
    forall r ensures Look(a, p + s + r) == Look(b, q + s + r) {
      assert p + s + r == p + (s + r) && q + s + r == q + (s + r);
      SubtreeLook(a, p, b, q, s + r);
    }
    SameSubtree(a, p + s, b, q + s);
  }

  // ── what the calls do ──────────────────────────────────────────────────────

  /** `mkdirSync(p, { recursive: true })` */
  function WithDirs(fs: Fs, p: Path): Fs {
    fs + map q | q in (set n | 0 <= n <= |p| :: p[..n]) && q !in fs :: Dir
  }

  predicate CanMkdir(fs: Fs, p: Path) {
    forall n :: 0 <= n <= |p| && p[..n] in fs ==> fs[p[..n]].Dir?
  }

  /** A change elsewhere does not decide whether a directory can be made. */
  lemma KeepsMkdir(before: Fs, after: Fs, d: Path, e: Path, p: Path)
    requires Touches(before, after, d, e) && !(d <= p) && !(e <= p)
    ensures CanMkdir(before, p) <==> CanMkdir(after, p)
  {
    forall n | 0 <= n <= |p|
      ensures p[..n] in before && before[p[..n]].File? <==> p[..n] in after && after[p[..n]].File?
    {
      PrefixOf(d, p, n);
      PrefixOf(e, p, n);
      assert Look(after, p[..n]) == Look(before, p[..n]) || (p[..n] !in before && Look(after, p[..n]) == Some(Dir));
    }
  }

  lemma PrefixOf(d: Path, p: Path, n: nat)
    requires n <= |p|
    ensures d <= p[..n] ==> d <= p
  {
    assert d <= p[..n] ==> p[..|d|] == p[..n][..|d|] == d;
  }

  /** What stands at and below `p`, for putting somewhere else. */
  function Below(fs: Fs, p: Path): Fs {
    map r | r in (set q | q in fs && p <= q :: q[|p|..]) && p + r in fs :: fs[p + r]
  }

  ghost function AsTree(t: Fs): Tree {
    imap r | r in t :: t[r]
  }

  lemma BelowIsSubtree(fs: Fs, p: Path)
    ensures AsTree(Below(fs, p)) == Subtree(fs, p)
  {
    forall r | p + r in fs ensures r in Below(fs, p) {
      assert (p + r)[|p|..] == r && p <= p + r;
    }
  }

  /** The tree at `d` becomes `tree`. */
  function Graft(fs: Fs, d: Path, tree: Fs): Fs {
    (map q | q in fs && !(d <= q) :: fs[q]) + map q | q in (set r | r in tree :: d + r) && q[|d|..] in tree :: tree[q[|d|..]]
  }

  function Parent(p: Path): Path {
    if p == [] then [] else p[..|p| - 1]
  }

  lemma WithDirsLook(fs: Fs, p: Path, q: Path)
    ensures !(q <= p) ==> Look(WithDirs(fs, p), q) == Look(fs, q)
    ensures q in fs ==> Look(WithDirs(fs, p), q) == Look(fs, q)
    ensures q <= p && q !in fs ==> Look(WithDirs(fs, p), q) == Some(Dir)
  {
    assert q <= p ==> q == p[..|q|];
  }

  lemma GraftLook(fs: Fs, d: Path, tree: Fs, q: Path)
    ensures !(d <= q) ==> Look(Graft(fs, d, tree), q) == Look(fs, q)
    ensures d <= q ==> Look(Graft(fs, d, tree), q) == Look(tree, q[|d|..])
  {
    if d <= q {
      assert q == d + q[|d|..];
    }
    forall r | r in tree ensures (d + r)[|d|..] == r && d <= d + r {
    }
  }

  /** Putting a tree at `d`, with its parents made, changes nothing apart from `d` and leaves the tree there. */
  lemma GraftIsAt(fs: Fs, d: Path, tree: Fs)
    ensures var after := Graft(WithDirs(fs, Parent(d)), d, tree);
      ChangedOnlyAt(fs, after, d) && Subtree(after, d) == AsTree(tree)
    ensures ChangedOnlyAt(fs, Graft(fs, d, tree), d) && Subtree(Graft(fs, d, tree), d) == AsTree(tree)
  {
    GraftSubtree(fs, d, tree);
    GraftSubtree(WithDirs(fs, Parent(d)), d, tree);
    forall q: Path | !(d <= q)
      ensures var after := Look(Graft(WithDirs(fs, Parent(d)), d, tree), q);
        after == Look(fs, q) || (q !in fs && after == Some(Dir) && q <= d)
      ensures Look(Graft(fs, d, tree), q) == Look(fs, q)
    {
      GraftLook(fs, d, tree, q);
      GraftLook(WithDirs(fs, Parent(d)), d, tree, q);
      PrefixOf(q, d, |Parent(d)|);
      WithDirsLook(fs, Parent(d), q);
    }
  }

  lemma GraftSubtree(fs: Fs, d: Path, tree: Fs)
    ensures Subtree(Graft(fs, d, tree), d) == AsTree(tree)
  {
    var after := Graft(fs, d, tree);
    forall r: Path ensures Look(after, d + r) == Look(tree, r) {
      GraftLook(fs, d, tree, d + r);
      assert (d + r)[|d|..] == r;
    }
    forall r: Path ensures r in Subtree(after, d) <==> r in tree {
      assert Look(after, d + r) == Look(tree, r);
    }
    forall r: Path | r in tree ensures Subtree(after, d)[r] == tree[r] {
      assert Look(after, d + r) == Look(tree, r);
    }
  }

  /** Making the parents of `d` is a change at `d` at most. */
  lemma WithDirsTouches(fs: Fs, d: Path)
    ensures ChangedOnlyAt(fs, WithDirs(fs, Parent(d)), d)
  {
    forall q: Path | !(d <= q)
      ensures var after := Look(WithDirs(fs, Parent(d)), q); after == Look(fs, q) || (q !in fs && after == Some(Dir) && q <= d)
    {
      PrefixOf(q, d, |Parent(d)|);
      WithDirsLook(fs, Parent(d), q);
    }
  }

  /** New directories are in no directory's way. */
  lemma WithDirsMkdir(fs: Fs, p: Path, q: Path)
    ensures CanMkdir(WithDirs(fs, p), q) <==> CanMkdir(fs, q)
  {
    forall n | 0 <= n <= |q|
      ensures q[..n] in WithDirs(fs, p) && WithDirs(fs, p)[q[..n]].File? <==> q[..n] in fs && fs[q[..n]].File?
    {
      WithDirsLook(fs, p, q[..n]);
      assert Look(WithDirs(fs, p), q[..n]) == Look(fs, q[..n]) || Look(WithDirs(fs, p), q[..n]) == Some(Dir);
    }
  }

  lemma WithDirsChanges(fs: Fs, p: Path)
    ensures ChangedOnlyAt(fs, WithDirs(fs, p), p)
    ensures CanMkdir(fs, p) ==> CanMkdir(WithDirs(fs, p), p) && Look(WithDirs(fs, p), p) == Some(Dir)
  {
    forall q: Path ensures q in fs ==> Look(WithDirs(fs, p), q) == Look(fs, q)
      ensures !(q <= p) ==> Look(WithDirs(fs, p), q) == Look(fs, q)
      ensures q <= p && q !in fs ==> Look(WithDirs(fs, p), q) == Some(Dir)
    {
      WithDirsLook(fs, p, q);
    }
    assert p[..|p|] == p;
  }

  /** Every path has its parents, and they are directories. */
  ghost predicate IsTree(fs: Fs) {
    forall q, n :: q in fs && 0 <= n < |q| ==> q[..n] in fs && fs[q[..n]].Dir?
  }

  lemma AbsentIsEmpty(fs: Fs, p: Path)
    requires IsTree(fs)
    ensures p in fs <==> Subtree(fs, p) != imap[]
  {
    RootLook(fs, p);
    if p !in fs {
      forall r ensures p + r !in fs {
        TreeAbove(fs, p, r);
      }
    }
  }

  lemma TreeAbove(fs: Fs, p: Path, r: Path)
    requires IsTree(fs)
    ensures p + r in fs ==> p in fs
  {
    assert (p + r)[..|p|] == p;
    assert r == [] ==> p + r == p;
  }
}
