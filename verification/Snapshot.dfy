/**
 What a freeze (src/cli/freeze.ts) and a restore (src/cli/restore.ts) promise: when
 they can succeed, what they leave, what a failure leaves, and the round trip.
 */
module Snapshot {

  import opened FileTree
  import opened Prelude

  /** A file or directory of the Kshetra's, or its slice of state.json. */
  datatype Location = Location(key: string, path: Path, isSlice: bool, required: bool)

  datatype Entry = Entry(key: string, present: bool, slot: string)

  type Flags = map<string, Slice>

  /** The name a location has inside a snapshot and an archive. */
  function Slot(loc: Location): string {
    if loc.isSlice then loc.key + ".json" else loc.key
  }

  function At(dir: Path, loc: Location): Path {
    dir + [Slot(loc)]
  }

  /** What `kshetraStateLocations` gives: own keys, places apart, at most one slice of state.json. */
  predicate Layout(locs: seq<Location>) {
    forall i, j :: 0 <= i < j < |locs| ==>
      && locs[i].key != locs[j].key && Slot(locs[i]) != Slot(locs[j])
      && (!locs[i].isSlice && !locs[j].isSlice ==> Apart(locs[i].path, locs[j].path))
      && !(locs[i].isSlice && locs[j].isSlice)
  }

  /** The directory shares no place with a location. */
  predicate Beside(locs: seq<Location>, dir: Path) {
    forall i :: 0 <= i < |locs| && !locs[i].isSlice ==> Apart(dir, locs[i].path)
  }

  lemma SlotsApart(dir: Path, a: Location, b: Location)
    requires Slot(a) != Slot(b)
    ensures Apart(At(dir, a), At(dir, b))
  {
    assert At(dir, a)[|dir|] == Slot(a) && At(dir, b)[|dir|] == Slot(b);
  }

  lemma OneFile(content: Content)
    ensures AsTree(map[[] := File(content)]) == imap[[] := File(content)]
  {
  }

  lemma SlotBeside(dir: Path, loc: Location, p: Path)
    requires Apart(dir, p)
    ensures Apart(At(dir, loc), p) && Apart(p, At(dir, loc))
  {
    ApartBelow(dir, p, [Slot(loc)]);
  }

  // ── when the calls succeed ─────────────────────────────────────────────────

  predicate CanCopy(fs: Fs, src: Path, dest: Path) {
    src in fs && dest !in fs && Apart(src, dest) && CanMkdir(fs, Parent(dest))
  }

  predicate CanWrite(fs: Fs, p: Path) {
    Parent(p) in fs && fs[Parent(p)].Dir? && (p in fs ==> fs[p].File?)
  }

  /** The location can be captured: it is there if it must be, and its slot is free. */
  predicate CanFreezeOne(fs: Fs, state: Flags, loc: Location, id: string, out: Path) {
    if loc.isSlice then id in state && At(out, loc) in fs ==> fs[At(out, loc)].File?
    else (loc.path in fs ==> At(out, loc) !in fs) && (loc.required ==> loc.path in fs)
  }

  predicate Freezable(fs: Fs, state: Flags, locs: seq<Location>, id: string, out: Path) {
    CanMkdir(fs, out) && forall i :: 0 <= i < |locs| ==> CanFreezeOne(fs, state, locs[i], id, out)
  }

  /** The location can be put back: what was captured of it is in the snapshot, and nothing above it is a file. */
  predicate CanRestoreOne(fs: Fs, loc: Location, from: Path, entry: Option<Entry>) {
    if loc.isSlice then SliceReadable(fs, from, entry)
    else entry.Some? && entry.value.present ==> from + [entry.value.slot] in fs && CanMkdir(fs, Parent(loc.path))
  }

  predicate Restorable(fs: Fs, locs: seq<Location>, from: Path, archive: Path, entries: seq<Entry>) {
    && CanMkdir(fs, archive)
    && forall i :: 0 <= i < |locs| ==> CanRestoreOne(fs, locs[i], from, Lookup(entries, locs[i].key))
  }

  lemma ParentAbove(src: Path, dest: Path)
    ensures Apart(src, dest) ==> dest != [] && !(src <= Parent(dest)) && !(dest <= Parent(dest))
  {
    if dest != [] {
      PrefixOf(src, dest, |dest| - 1);
    }
  }

  /** `renameSync` */
  function Renamed(fs: Fs, src: Path, dest: Path): Fs {
    Graft(Graft(fs, dest, Below(fs, src)), src, map[])
  }

  lemma EmptyTree()
    ensures AsTree(map[]) == imap[]
  {
  }

  lemma AfterMkdir(fs: Fs, src: Path, dest: Path)
    requires CanMkdir(fs, Parent(dest)) && CanCopy(WithDirs(fs, Parent(dest)), src, dest)
    ensures CanCopy(fs, src, dest)
  {
    ParentAbove(src, dest);
    WithDirsLook(fs, Parent(dest), src);
    WithDirsLook(fs, Parent(dest), dest);
  }

  // ── what a freeze leaves ───────────────────────────────────────────────────

  /** What a location holds for this Kshetra; nothing where it is absent. */
  ghost function Held(fs: Fs, state: Flags, loc: Location, id: string): Tree {
    if !loc.isSlice then Subtree(fs, loc.path)
    else if id in state then imap[[] := File(SliceJson(Some(state[id])))]
    else imap[]
  }

  ghost predicate EntryOf(fs: Fs, state: Flags, loc: Location, id: string, entry: Entry) {
    && entry.key == loc.key && entry.slot == (if loc.isSlice then loc.key + ".json" else loc.key)
    && (entry.present <==> [] in Held(fs, state, loc, id))
  }

  ghost predicate FrozenAt(before: Fs, state: Flags, loc: Location, id: string, out: Path, after: Fs, entry: Entry) {
    && EntryOf(before, state, loc, id, entry)
    && (entry.present ==> Subtree(after, At(out, loc)) == Held(before, state, loc, id))
  }

  ghost predicate Frozen(before: Fs, state: Flags, locs: seq<Location>, id: string, out: Path, after: Fs, entries: seq<Entry>) {
    && |entries| == |locs|
    && forall i :: 0 <= i < |locs| ==> FrozenAt(before, state, locs[i], id, out, after, entries[i])
  }

  ghost function SliceFile(state: Flags, id: string): Tree {
    imap[[] := File(SliceJson(if id in state then Some(state[id]) else None))]
  }

  ghost predicate SameLocations(before: Fs, after: Fs, locs: seq<Location>) {
    forall i :: 0 <= i < |locs| && !locs[i].isSlice ==> Subtree(after, locs[i].path) == Subtree(before, locs[i].path)
  }

  /** Before location `i` is captured: the locations and the slots to come are as at the start. */
  ghost predicate FreezingUpTo(start: Fs, locs: seq<Location>, out: Path, now: Fs, i: nat) {
    && SameLocations(start, now, locs)
    && Look(now, out) == Some(Dir) && CanMkdir(now, out)
    && forall j :: i <= j < |locs| ==> Look(now, At(out, locs[j])) == Look(start, At(out, locs[j]))
  }

  lemma MkdirFreezes(start: Fs, locs: seq<Location>, out: Path)
    requires Beside(locs, out) && CanMkdir(start, out)
    ensures FreezingUpTo(start, locs, out, WithDirs(start, out), 0)
  {
    var made := WithDirs(start, out);
    WithDirsChanges(start, out);
    forall j | 0 <= j < |locs|
      ensures Look(made, At(out, locs[j])) == Look(start, At(out, locs[j]))
      ensures !locs[j].isSlice ==> Subtree(made, locs[j].path) == Subtree(start, locs[j].path)
    {
      WithDirsLook(start, out, At(out, locs[j]));
      if !locs[j].isSlice {
        KeepsApart(start, made, out, out, locs[j].path);
      }
    }
  }

  lemma FreezeStep(start: Fs, locs: seq<Location>, out: Path, before: Fs, after: Fs, i: nat)
    requires Layout(locs) && Beside(locs, out) && i < |locs|
    requires FreezingUpTo(start, locs, out, before, i) && ChangedOnlyAt(before, after, At(out, locs[i]))
    ensures FreezingUpTo(start, locs, out, after, i + 1)
    ensures forall j :: 0 <= j < i ==> Subtree(after, At(out, locs[j])) == Subtree(before, At(out, locs[j]))
  {
    FreezeKeeps(locs, i, out, before, after);
    KeepsMkdir(before, after, At(out, locs[i]), At(out, locs[i]), out);
    forall j | i < j < |locs| ensures Look(after, At(out, locs[j])) == Look(before, At(out, locs[j])) {
      SlotsApart(out, locs[i], locs[j]);
    }
  }

  lemma SameFreezable(start: Fs, before: Fs, state: Flags, locs: seq<Location>, id: string, out: Path, i: nat)
    requires i < |locs| && FreezingUpTo(start, locs, out, before, i)
    ensures Held(before, state, locs[i], id) == Held(start, state, locs[i], id)
    ensures CanFreezeOne(before, state, locs[i], id, out) <==> CanFreezeOne(start, state, locs[i], id, out)
  {
    assert Look(before, At(out, locs[i])) == Look(start, At(out, locs[i]));
    if !locs[i].isSlice {
      SamePresence(start, before, locs[i].path);
    }
  }

  /** Capturing one location disturbs neither the locations nor what is captured already. */
  lemma FreezeKeeps(locs: seq<Location>, i: nat, out: Path, before: Fs, after: Fs)
    requires i < |locs| && Layout(locs) && Beside(locs, out) && ChangedOnlyAt(before, after, At(out, locs[i]))
    ensures forall j :: 0 <= j < |locs| && !locs[j].isSlice ==> Subtree(after, locs[j].path) == Subtree(before, locs[j].path)
    ensures forall j :: 0 <= j < i ==> Subtree(after, At(out, locs[j])) == Subtree(before, At(out, locs[j]))
  {
    forall j | 0 <= j < |locs| && !locs[j].isSlice ensures Subtree(after, locs[j].path) == Subtree(before, locs[j].path) {
      SlotBeside(out, locs[i], locs[j].path);
      KeepsApart(before, after, At(out, locs[i]), At(out, locs[i]), locs[j].path);
    }
    forall j | 0 <= j < i ensures Subtree(after, At(out, locs[j])) == Subtree(before, At(out, locs[j])) {
      SlotsApart(out, locs[j], locs[i]);
      KeepsApart(before, after, At(out, locs[i]), At(out, locs[i]), At(out, locs[j]));
    }
  }

  // ── what a restore leaves ──────────────────────────────────────────────────

  /** `new Map(manifest.locations.map(l => [l.key, l])).get(key)`: the last of equal keys. */
  function Lookup(entries: seq<Entry>, key: string): Option<Entry> {
    if entries == [] then None
    else if entries[|entries| - 1].key == key then Some(entries[|entries| - 1])
    else Lookup(entries[..|entries| - 1], key)
  }

  /** Of several entries with one key the last is used, and none only where there is none. */
  lemma {:induction false} LookupIsLast(entries: seq<Entry>, key: string, k: nat)
    ensures k < |entries| && entries[k].key == key && (forall j :: k < j < |entries| ==> entries[j].key != key) ==>
              Lookup(entries, key) == Some(entries[k])
    ensures Lookup(entries, key).None? <==> forall j :: 0 <= j < |entries| ==> entries[j].key != key
  {
    if entries != [] {
      var n := |entries| - 1;
      LookupIsLast(entries[..n], key, k);
      assert forall j :: 0 <= j < n ==> entries[..n][j] == entries[j];
    }
  }

  ghost function Archived(fs: Fs, state: Flags, loc: Location, id: string): Tree {
    if loc.isSlice then SliceFile(state, id) else Subtree(fs, loc.path)
  }

  ghost function Wanted(fs: Fs, from: Path, entry: Option<Entry>): Tree {
    if entry.Some? && entry.value.present then Subtree(fs, from + [entry.value.slot]) else imap[]
  }

  predicate IsSliceFile(n: Option<Node>) {
    n.Some? && n.value.File? && n.value.content.SliceJson?
  }

  /** The snapshot's slice can be read, or there is none to read. */
  predicate SliceReadable(fs: Fs, from: Path, entry: Option<Entry>) {
    entry.Some? && entry.value.present ==> IsSliceFile(Look(fs, from + [entry.value.slot]))
  }

  /** A slice that was captured can be put back exactly if its file is there and holds the JSON of a slice. */
  lemma SliceIsReadableExactly(fs: Fs, loc: Location, from: Path, entry: Entry)
    requires loc.isSlice && entry.present
    ensures CanRestoreOne(fs, loc, from, Some(entry)) <==>
              from + [entry.slot] in fs && exists slice :: fs[from + [entry.slot]] == File(SliceJson(slice))
  {
    if CanRestoreOne(fs, loc, from, Some(entry)) {
      var n := fs[from + [entry.slot]];
      assert n == File(SliceJson(n.content.slice));
    }
  }

  function SliceOf(n: Option<Node>): Option<Slice> {
    if IsSliceFile(n) then n.value.content.slice else None
  }

  function WantedSlice(fs: Fs, from: Path, entry: Option<Entry>): Option<Slice> {
    if entry.Some? && entry.value.present then SliceOf(Look(fs, from + [entry.value.slot])) else None
  }

  /** `restoreKshetraSlice`: no `stuck`, both pause latches off, the rest as it was. */
  function Reset(slice: Option<Slice>): Slice {
    Slice(false, false, None, if slice.Some? then slice.value.rest else map[])
  }

  /** state.json after the first `n` locations: this Kshetra's entry is reset when its slice comes up. */
  function Restated(fs: Fs, before: Flags, locs: seq<Location>, id: string, from: Path, entries: seq<Entry>, n: nat): Flags
    requires n <= |locs|
  {
    if n == 0 then before
    else
      var sofar := Restated(fs, before, locs, id, from, entries, n - 1);
      if locs[n - 1].isSlice then sofar[id := Reset(WantedSlice(fs, from, Lookup(entries, locs[n - 1].key)))] else sofar
  }

  ghost predicate Restored(before: Fs, stateBefore: Flags, locs: seq<Location>, id: string, from: Path, archive: Path,
      entries: seq<Entry>, after: Fs, stateAfter: Flags)
  {
    && (forall i :: 0 <= i < |locs| ==>
          && Subtree(after, At(archive, locs[i])) == Archived(before, stateBefore, locs[i], id)
          && (!locs[i].isSlice ==> Subtree(after, locs[i].path) == Wanted(before, from, Lookup(entries, locs[i].key))))
    && stateAfter == Restated(before, stateBefore, locs, id, from, entries, |locs|)
    && Subtree(after, from) == Subtree(before, from)
  }

  /** A location is there, or nothing is below its path either. */
  ghost predicate Whole(fs: Fs, locs: seq<Location>) {
    forall i :: 0 <= i < |locs| && !locs[i].isSlice ==> locs[i].path in fs || Subtree(fs, locs[i].path) == imap[]
  }

  ghost predicate EmptySlots(fs: Fs, locs: seq<Location>, dir: Path) {
    forall i :: 0 <= i < |locs| ==> Subtree(fs, At(dir, locs[i])) == imap[]
  }

  lemma SamePresence(a: Fs, b: Fs, p: Path)
    requires Subtree(a, p) == Subtree(b, p)
    ensures p in a <==> p in b
  {
    RootLook(a, p);
    RootLook(b, p);
    assert Look(a, p) == Look(b, p);
  }

  lemma SameWanted(a: Fs, b: Fs, from: Path, entry: Option<Entry>)
    requires Subtree(a, from) == Subtree(b, from)
    ensures Wanted(a, from, entry) == Wanted(b, from, entry)
    ensures WantedSlice(a, from, entry) == WantedSlice(b, from, entry)
  {
    if entry.Some? {
      var s := [entry.value.slot];
      SubtreeWithin(a, from, b, from, s);
      SubtreeLook(a, from, b, from, s);
    }
  }

  ghost predicate SameMkdirs(before: Fs, after: Fs, locs: seq<Location>) {
    forall i :: 0 <= i < |locs| && !locs[i].isSlice ==>
      (CanMkdir(after, Parent(locs[i].path)) <==> CanMkdir(before, Parent(locs[i].path)))
  }

  ghost predicate SameSlots(before: Fs, after: Fs, locs: seq<Location>, archive: Path) {
    forall i :: 0 <= i < |locs| ==> Subtree(after, At(archive, locs[i])) == Subtree(before, At(archive, locs[i]))
  }

  /** Making the archive directory: where the archive loop starts. */
  lemma MkdirKeeps(fs: Fs, state: Flags, locs: seq<Location>, id: string, from: Path, archive: Path)
    requires Beside(locs, archive) && Apart(archive, from) && IsTree(fs) && EmptySlots(fs, locs, archive)
    requires CanMkdir(fs, archive)
    ensures ArchivedUpTo(fs, state, locs, id, from, archive, WithDirs(fs, archive), 0)
    ensures Whole(fs, locs)
  {
    var made := WithDirs(fs, archive);
    WithDirsChanges(fs, archive);
    KeepsApart(fs, made, archive, archive, from);
    forall i | 0 <= i < |locs| ensures Subtree(made, At(archive, locs[i])) == imap[] {
      MkdirKeepsSlot(fs, archive, locs[i]);
    }
    forall i | 0 <= i < |locs| && !locs[i].isSlice
      ensures Subtree(made, locs[i].path) == Subtree(fs, locs[i].path)
      ensures CanMkdir(made, Parent(locs[i].path)) <==> CanMkdir(fs, Parent(locs[i].path))
      ensures locs[i].path in fs || Subtree(fs, locs[i].path) == imap[]
    {
      KeepsApart(fs, made, archive, archive, locs[i].path);
      WithDirsMkdir(fs, archive, Parent(locs[i].path));
      AbsentIsEmpty(fs, locs[i].path);
    }
  }

  lemma MkdirKeepsSlot(fs: Fs, archive: Path, loc: Location)
    ensures Subtree(WithDirs(fs, archive), At(archive, loc)) == Subtree(fs, At(archive, loc))
  {
    forall r ensures Look(WithDirs(fs, archive), At(archive, loc) + r) == Look(fs, At(archive, loc) + r) {
      WithDirsLook(fs, archive, At(archive, loc) + r);
    }
    SameSubtree(WithDirs(fs, archive), At(archive, loc), fs, At(archive, loc));
  }

  /** Where a location's own state is. */
  function Zone(loc: Location, archive: Path): Path {
    if loc.isSlice then At(archive, loc) else loc.path
  }

  /** What archiving one location does, and that it does nothing else. */
  ghost predicate ArchivesOne(before: Fs, after: Fs, state: Flags, loc: Location, id: string, archive: Path) {
    && Touches(before, after, At(archive, loc), Zone(loc, archive))
    && (loc.isSlice ==> Subtree(after, At(archive, loc)) == SliceFile(state, id))
    && (!loc.isSlice && loc.path in before ==> Subtree(after, At(archive, loc)) == Subtree(before, loc.path))
    && (!loc.isSlice && loc.path !in before ==> after == before)
  }

  ghost predicate ArchivedUpTo(start: Fs, state: Flags, locs: seq<Location>, id: string, from: Path, archive: Path, now: Fs, i: nat)
    requires i <= |locs|
  {
    && Subtree(now, from) == Subtree(start, from) && SameMkdirs(start, now, locs)
    && Look(now, archive) == Some(Dir) && CanMkdir(now, archive)
    && (forall j :: 0 <= j < i ==> Subtree(now, At(archive, locs[j])) == Archived(start, state, locs[j], id))
    && (forall j :: i <= j < |locs| ==> Subtree(now, At(archive, locs[j])) == imap[])
    && (forall j :: i <= j < |locs| && !locs[j].isSlice ==> Subtree(now, locs[j].path) == Subtree(start, locs[j].path))
  }

  lemma ArchiveStep(start: Fs, state: Flags, locs: seq<Location>, id: string, from: Path, archive: Path,
      before: Fs, after: Fs, i: nat)
    requires Layout(locs) && Beside(locs, archive) && Beside(locs, from) && Apart(archive, from)
    requires Whole(start, locs) && i < |locs|
    requires ArchivedUpTo(start, state, locs, id, from, archive, before, i)
    requires ArchivesOne(before, after, state, locs[i], id, archive)
    ensures ArchivedUpTo(start, state, locs, id, from, archive, after, i + 1)
  {
    ArchiveKeepsRest(locs, i, from, archive, before, after);
    ArchiveKeepsOthers(locs, i, archive, before, after);
    if !locs[i].isSlice {
      SamePresence(start, before, locs[i].path);
    }
  }

  lemma ArchiveKeepsOthers(locs: seq<Location>, i: nat, archive: Path, before: Fs, after: Fs)
    requires i < |locs| && Layout(locs) && Beside(locs, archive)
    requires Touches(before, after, At(archive, locs[i]), Zone(locs[i], archive))
    ensures forall j :: 0 <= j < |locs| && j != i ==> Subtree(after, At(archive, locs[j])) == Subtree(before, At(archive, locs[j]))
    ensures forall j :: 0 <= j < |locs| && j != i && !locs[j].isSlice ==>
      Subtree(after, locs[j].path) == Subtree(before, locs[j].path)
  {
    forall j | 0 <= j < |locs| && j != i
      ensures Subtree(after, At(archive, locs[j])) == Subtree(before, At(archive, locs[j]))
      ensures !locs[j].isSlice ==> Subtree(after, locs[j].path) == Subtree(before, locs[j].path)
    {
      ArchiveKeeps(locs, i, j, archive, before, after);
    }
  }

  lemma ArchiveKeepsRest(locs: seq<Location>, i: nat, from: Path, archive: Path, before: Fs, after: Fs)
    requires i < |locs| && Layout(locs) && Beside(locs, archive) && Beside(locs, from) && Apart(archive, from)
    requires Touches(before, after, At(archive, locs[i]), Zone(locs[i], archive))
    ensures Subtree(after, from) == Subtree(before, from)
    ensures Look(before, archive) == Some(Dir) && CanMkdir(before, archive) ==>
      Look(after, archive) == Some(Dir) && CanMkdir(after, archive)
    ensures SameMkdirs(before, after, locs)
  {
    var slot, zone := At(archive, locs[i]), Zone(locs[i], archive);
    SlotBeside(archive, locs[i], from);
    KeepsApart(before, after, slot, zone, from);
    KeepsMkdir(before, after, slot, zone, archive);
    forall j | 0 <= j < |locs| && !locs[j].isSlice
      ensures CanMkdir(after, Parent(locs[j].path)) <==> CanMkdir(before, Parent(locs[j].path))
    {
      SlotBeside(archive, locs[i], locs[j].path);
      NotAboveParent(locs, i, j);
      PrefixOf(slot, locs[j].path, |locs[j].path| - 1);
      KeepsMkdir(before, after, slot, zone, Parent(locs[j].path));
    }
  }

  /** No location holds another's parent. */
  lemma NotAboveParent(locs: seq<Location>, i: nat, j: nat)
    requires Layout(locs) && i < |locs| && j < |locs| && !locs[j].isSlice && locs[j].path != []
    ensures !locs[i].isSlice ==> !(locs[i].path <= Parent(locs[j].path))
  {
    PrefixOf(locs[i].path, locs[j].path, |locs[j].path| - 1);
  }

  lemma ArchiveKeeps(locs: seq<Location>, i: nat, j: nat, archive: Path, before: Fs, after: Fs)
    requires i < |locs| && j < |locs| && i != j && Layout(locs) && Beside(locs, archive)
    requires Touches(before, after, At(archive, locs[i]), Zone(locs[i], archive))
    ensures Subtree(after, At(archive, locs[j])) == Subtree(before, At(archive, locs[j]))
    ensures !locs[j].isSlice ==> Subtree(after, locs[j].path) == Subtree(before, locs[j].path)
  {
    var slot, zone := At(archive, locs[i]), Zone(locs[i], archive);
    assert Slot(locs[i]) != Slot(locs[j]);
    SlotsApart(archive, locs[j], locs[i]);
    if !locs[i].isSlice {
      SlotBeside(archive, locs[j], locs[i].path);
    }
    KeepsApart(before, after, slot, zone, At(archive, locs[j]));
    if !locs[j].isSlice {
      SlotBeside(archive, locs[i], locs[j].path);
      KeepsApart(before, after, slot, zone, locs[j].path);
    }
  }

  // ── a restore can be undone ────────────────────────────────────────────────

  /** Each tree that was at a location is there still, or is in the archive. */
  ghost predicate TreesStand(start: Fs, now: Fs, locs: seq<Location>, archive: Path) {
    forall i :: 0 <= i < |locs| && !locs[i].isSlice ==>
      || Subtree(now, locs[i].path) == Subtree(start, locs[i].path)
      || Subtree(now, At(archive, locs[i])) == Subtree(start, locs[i].path)
  }

  /** The other Kshetras' flags are untouched. */
  ghost predicate OthersKept(before: Flags, after: Flags, id: string) {
    forall other :: other != id ==>
      (other in after <==> other in before) && (other in before ==> after[other] == before[other])
  }

  /** What a restore replaced is all there: the trees, this Kshetra's flags, and the other Kshetras' flags where they were. */
  ghost predicate Reversible(start: Fs, stateStart: Flags, now: Fs, stateNow: Flags, locs: seq<Location>, id: string, archive: Path) {
    && TreesStand(start, now, locs, archive)
    && OthersKept(stateStart, stateNow, id)
    && (stateNow == stateStart
        || forall i :: 0 <= i < |locs| && locs[i].isSlice ==> Subtree(now, At(archive, locs[i])) == SliceFile(stateStart, id))
  }

  /** Archiving breaks off at location `i`. */
  lemma ArchiveFails(start: Fs, state: Flags, locs: seq<Location>, id: string, from: Path, archive: Path,
      before: Fs, after: Fs, i: nat)
    requires Layout(locs) && Beside(locs, archive) && i < |locs|
    requires ArchivedUpTo(start, state, locs, id, from, archive, before, i)
    requires Touches(before, after, At(archive, locs[i]), Zone(locs[i], archive))
    requires !locs[i].isSlice ==>
      || Subtree(after, locs[i].path) == Subtree(before, locs[i].path)
      || Subtree(after, At(archive, locs[i])) == Subtree(before, locs[i].path)
    ensures TreesStand(start, after, locs, archive)
  {
    ArchiveKeepsOthers(locs, i, archive, before, after);
    forall j | 0 <= j < |locs| && !locs[j].isSlice
      ensures Subtree(after, locs[j].path) == Subtree(start, locs[j].path)
           || Subtree(after, At(archive, locs[j])) == Subtree(start, locs[j].path)
    {
      if j < i {
        assert Subtree(before, At(archive, locs[j])) == Archived(start, state, locs[j], id);
      }
    }
  }

  /** Whatever the restore loop did, the archive made before it holds what was there. */
  lemma ArchiveOutlives(start: Fs, state: Flags, locs: seq<Location>, id: string, from: Path, archive: Path,
      archived: Fs, now: Fs, stateNow: Flags)
    requires ArchivedUpTo(start, state, locs, id, from, archive, archived, |locs|) && SameSlots(archived, now, locs, archive)
    requires OthersKept(state, stateNow, id)
    ensures Reversible(start, state, now, stateNow, locs, id, archive)
  {
    forall i | 0 <= i < |locs| ensures Subtree(now, At(archive, locs[i])) == Archived(start, state, locs[i], id) {
      assert Subtree(now, At(archive, locs[i])) == Subtree(archived, At(archive, locs[i]));
    }
  }

  // ── the restore loop ───────────────────────────────────────────────────────

  /** Whether a location can be put back hangs on the snapshot and on what is above it alone. */
  lemma SameRestorable(start: Fs, now: Fs, locs: seq<Location>, i: nat, from: Path, entry: Option<Entry>)
    requires i < |locs| && Subtree(now, from) == Subtree(start, from) && SameMkdirs(start, now, locs)
    ensures CanRestoreOne(now, locs[i], from, entry) <==> CanRestoreOne(start, locs[i], from, entry)
  {
    if entry.Some? {
      SubtreeLook(now, from, start, from, [entry.value.slot]);
    }
  }

  lemma RestoreKeepsMkdirs(start: Fs, locs: seq<Location>, i: nat, archive: Path, before: Fs, after: Fs)
    requires i < |locs| && Layout(locs) && Beside(locs, archive) && !locs[i].isSlice
    requires SameMkdirs(start, before, locs) && ChangedOnlyAt(before, after, locs[i].path)
    ensures SameMkdirs(start, after, locs)
  {
    forall j | 0 <= j < |locs| && !locs[j].isSlice
      ensures CanMkdir(after, Parent(locs[j].path)) <==> CanMkdir(before, Parent(locs[j].path))
    {
      NotAboveParent(locs, i, j);
      KeepsMkdir(before, after, locs[i].path, locs[i].path, Parent(locs[j].path));
    }
  }

  ghost predicate RestoredUpTo(before: Fs, stateBefore: Flags, locs: seq<Location>, id: string, from: Path, archive: Path,
      entries: seq<Entry>, now: Fs, stateNow: Flags, i: nat)
    requires i <= |locs|
  {
    && Subtree(now, from) == Subtree(before, from) && SameSlots(before, now, locs, archive) && SameMkdirs(before, now, locs)
    && (forall j :: 0 <= j < i && !locs[j].isSlice ==>
          Subtree(now, locs[j].path) == Wanted(before, from, Lookup(entries, locs[j].key)))
    && stateNow == Restated(before, stateBefore, locs, id, from, entries, i) && OthersKept(stateBefore, stateNow, id)
  }

  /** What putting one location back does. */
  ghost predicate RestoresOne(before: Fs, stateBefore: Flags, after: Fs, stateAfter: Flags, loc: Location, id: string, from: Path,
      entries: seq<Entry>)
  {
    var entry := Lookup(entries, loc.key);
    if loc.isSlice then after == before && stateAfter == stateBefore[id := Reset(WantedSlice(before, from, entry))]
    else
      && ChangedOnlyAt(before, after, loc.path) && Subtree(after, loc.path) == Wanted(before, from, entry)
      && stateAfter == stateBefore
  }

  lemma RestoreStep(start: Fs, stateStart: Flags, locs: seq<Location>, id: string, from: Path, archive: Path, entries: seq<Entry>,
      before: Fs, stateBefore: Flags, after: Fs, stateAfter: Flags, i: nat)
    requires Layout(locs) && Beside(locs, archive) && Beside(locs, from) && i < |locs|
    requires RestoredUpTo(start, stateStart, locs, id, from, archive, entries, before, stateBefore, i)
    requires RestoresOne(before, stateBefore, after, stateAfter, locs[i], id, from, entries)
    ensures RestoredUpTo(start, stateStart, locs, id, from, archive, entries, after, stateAfter, i + 1)
  {
    hide Subtree, Wanted, WantedSlice, Lookup, Apart, Beside, Layout, CanMkdir, ChangedOnlyAt, SameSlots, SameMkdirs;
    SameWanted(start, before, from, Lookup(entries, locs[i].key));
    if !locs[i].isSlice {
      RestoreTreeStep(start, stateStart, locs, id, from, archive, entries, before, after, stateBefore, i);
    }
  }

  lemma RestoreTreeStep(start: Fs, stateStart: Flags, locs: seq<Location>, id: string, from: Path, archive: Path,
      entries: seq<Entry>, before: Fs, after: Fs, state: Flags, i: nat)
    requires Layout(locs) && Beside(locs, archive) && Beside(locs, from) && i < |locs| && !locs[i].isSlice
    requires RestoredUpTo(start, stateStart, locs, id, from, archive, entries, before, state, i)
    requires ChangedOnlyAt(before, after, locs[i].path)
    requires Subtree(after, locs[i].path) == Wanted(start, from, Lookup(entries, locs[i].key))
    ensures RestoredUpTo(start, stateStart, locs, id, from, archive, entries, after, state, i + 1)
  {
    hide Subtree, Wanted, Lookup, Apart, Beside, Layout, CanMkdir, ChangedOnlyAt;
    RestoreKeeps(locs, i, from, archive, before, after);
    RestoreKeepsMkdirs(start, locs, i, archive, before, after);
  }

  /** Putting a location back breaks off. */
  lemma RestoreStops(locs: seq<Location>, i: nat, archive: Path, from: Path, start: Fs, before: Fs, after: Fs)
    requires i < |locs| && Layout(locs) && Beside(locs, archive) && Beside(locs, from) && SameSlots(start, before, locs, archive)
    requires if locs[i].isSlice then after == before else ChangedOnlyAt(before, after, locs[i].path)
    ensures SameSlots(start, after, locs, archive)
  {
    if !locs[i].isSlice {
      RestoreKeeps(locs, i, from, archive, before, after);
    }
  }

  lemma RestoreComposes(start: Fs, archived: Fs, stateStart: Flags, locs: seq<Location>, id: string, from: Path,
      archive: Path, entries: seq<Entry>, after: Fs, stateAfter: Flags)
    requires ArchivedUpTo(start, stateStart, locs, id, from, archive, archived, |locs|)
    requires RestoredUpTo(archived, stateStart, locs, id, from, archive, entries, after, stateAfter, |locs|)
    ensures Restored(start, stateStart, locs, id, from, archive, entries, after, stateAfter)
  {
    forall i | 0 <= i < |locs|
      ensures Wanted(archived, from, Lookup(entries, locs[i].key)) == Wanted(start, from, Lookup(entries, locs[i].key))
      ensures Subtree(after, At(archive, locs[i])) == Archived(start, stateStart, locs[i], id)
    {
      SameWanted(start, archived, from, Lookup(entries, locs[i].key));
      assert Subtree(after, At(archive, locs[i])) == Subtree(archived, At(archive, locs[i]));
    }
    SameRestated(start, archived, stateStart, locs, id, from, entries, |locs|);
  }

  lemma {:induction false} SameRestated(a: Fs, b: Fs, state: Flags, locs: seq<Location>, id: string, from: Path,
      entries: seq<Entry>, n: nat)
    requires n <= |locs| && Subtree(a, from) == Subtree(b, from)
    ensures Restated(a, state, locs, id, from, entries, n) == Restated(b, state, locs, id, from, entries, n)
  {
    if n > 0 {
      SameRestated(a, b, state, locs, id, from, entries, n - 1);
      SameWanted(a, b, from, Lookup(entries, locs[n - 1].key));
    }
  }

  lemma RestoreKeeps(locs: seq<Location>, i: nat, from: Path, archive: Path, before: Fs, after: Fs)
    requires i < |locs| && Layout(locs) && Beside(locs, archive) && Beside(locs, from)
    requires !locs[i].isSlice && ChangedOnlyAt(before, after, locs[i].path)
    ensures Subtree(after, from) == Subtree(before, from)
    ensures SameSlots(before, after, locs, archive)
    ensures forall j :: 0 <= j < |locs| && j != i && !locs[j].isSlice ==>
      Subtree(after, locs[j].path) == Subtree(before, locs[j].path)
  {
    KeepsApart(before, after, locs[i].path, locs[i].path, from);
    forall j | 0 <= j < |locs| ensures Subtree(after, At(archive, locs[j])) == Subtree(before, At(archive, locs[j])) {
      SlotBeside(archive, locs[j], locs[i].path);
      KeepsApart(before, after, locs[i].path, locs[i].path, At(archive, locs[j]));
    }
    forall j | 0 <= j < |locs| && j != i && !locs[j].isSlice ensures Subtree(after, locs[j].path) == Subtree(before, locs[j].path) {
      KeepsApart(before, after, locs[i].path, locs[i].path, locs[j].path);
    }
  }

  // ── the round trip ─────────────────────────────────────────────────────────

  lemma {:induction false} LookupOwn(locs: seq<Location>, entries: seq<Entry>, n: nat, i: nat)
    requires Layout(locs) && i < n <= |entries| == |locs|
    requires forall j :: 0 <= j < |locs| ==> entries[j].key == locs[j].key
    ensures Lookup(entries[..n], locs[i].key) == Some(entries[i])
  {
    assert entries[..n][..n - 1] == entries[..n - 1];
    if i < n - 1 {
      LookupOwn(locs, entries, n - 1, i);
      assert locs[i].key != locs[n - 1].key;
    }
  }

  lemma {:induction false} RestatedOnce(fs: Fs, before: Flags, locs: seq<Location>, id: string, from: Path,
      entries: seq<Entry>, s: nat, n: nat)
    requires Layout(locs) && s < |locs| && locs[s].isSlice && n <= |locs|
    ensures Restated(fs, before, locs, id, from, entries, n)
         == if n <= s then before else before[id := Reset(WantedSlice(fs, from, Lookup(entries, locs[s].key)))]
  {
    if n > 0 {
      RestatedOnce(fs, before, locs, id, from, entries, s, n - 1);
      assert n - 1 != s ==> !locs[n - 1].isSlice;
    }
  }

  /** What the snapshot gives back for a location is what it captured, and nothing where it captured nothing. */
  lemma SnapshotGivesBack(start: Fs, startState: Flags, loc: Location, id: string, out: Path, frozen: Fs, entry: Entry,
      live: Fs, from: Path)
    requires IsTree(start) && FrozenAt(start, startState, loc, id, out, frozen, entry)
    requires Subtree(live, from) == Subtree(frozen, out)
    ensures Wanted(live, from, Some(entry)) == Held(start, startState, loc, id)
    ensures loc.isSlice ==> WantedSlice(live, from, Some(entry)) == if id in startState then Some(startState[id]) else None
  {
    SubtreeWithin(live, from, frozen, out, [Slot(loc)]);
    if loc.isSlice {
      RootLook(live, from + [Slot(loc)]);
    } else {
      AbsentIsEmpty(start, loc.path);
      RootLook(start, loc.path);
    }
  }

  /**
   A finished freeze can be restored: nothing of the snapshot stands in the way, whatever
   became of the Kshetra since.
   */
  lemma FrozenIsRestorable(start: Fs, startState: Flags, locs: seq<Location>, id: string, out: Path, frozen: Fs,
      entries: seq<Entry>, live: Fs, from: Path, archive: Path)
    requires Layout(locs) && Frozen(start, startState, locs, id, out, frozen, entries)
    requires Subtree(live, from) == Subtree(frozen, out)
    ensures Restorable(live, locs, from, archive, entries) <==>
      CanMkdir(live, archive)
      && forall i :: 0 <= i < |locs| && !locs[i].isSlice && entries[i].present ==> CanMkdir(live, Parent(locs[i].path))
  {
    assert entries[..|locs|] == entries;
    forall i | 0 <= i < |locs|
      ensures CanRestoreOne(live, locs[i], from, Lookup(entries, locs[i].key))
         <==> (!locs[i].isSlice && entries[i].present ==> CanMkdir(live, Parent(locs[i].path)))
    {
      LookupOwn(locs, entries, |locs|, i);
      if entries[i].present {
        FrozenSlotStands(start, startState, locs[i], id, out, frozen, entries[i], live, from);
      }
    }
  }

  /** What was captured stands in the snapshot, readable if it is the slice. */
  lemma FrozenSlotStands(start: Fs, startState: Flags, loc: Location, id: string, out: Path, frozen: Fs, entry: Entry,
      live: Fs, from: Path)
    requires FrozenAt(start, startState, loc, id, out, frozen, entry) && entry.present
    requires Subtree(live, from) == Subtree(frozen, out)
    ensures from + [entry.slot] in live && (loc.isSlice ==> IsSliceFile(Look(live, from + [entry.slot])))
  {
    RootLook(frozen, At(out, loc));
    SubtreeLook(live, from, frozen, out, [entry.slot]);
  }

  /**
   Freeze, then any life of the Kshetra that leaves the snapshot alone, then restore:
   every file and directory location is as it was frozen, and absent if it was absent;
   the Kshetra's flags are the frozen ones with `stuck` gone and both pause latches
   off; every other Kshetra's flags are untouched; and the archive holds what the
   restore replaced.
   */
  lemma RestoreBringsBackTheFrozen(start: Fs, startState: Flags, locs: seq<Location>, id: string, out: Path, frozen: Fs,
      entries: seq<Entry>, live: Fs, liveState: Flags, from: Path, archive: Path, after: Fs, stateAfter: Flags, s: nat)
    requires Layout(locs) && IsTree(start) && s < |locs| && locs[s].isSlice
    requires Frozen(start, startState, locs, id, out, frozen, entries)
    requires Subtree(live, from) == Subtree(frozen, out)
    requires Restored(live, liveState, locs, id, from, archive, entries, after, stateAfter)
    ensures forall i :: 0 <= i < |locs| && !locs[i].isSlice ==>
      && Subtree(after, locs[i].path) == Subtree(start, locs[i].path)
      && Subtree(after, At(archive, locs[i])) == Subtree(live, locs[i].path)
    ensures id in stateAfter
    ensures stateAfter[id] == (if id in startState then startState[id].(paused := false, requiresManualResume := false, stuck := None)
                               else Slice(false, false, None, map[]))
    ensures forall other :: other != id ==>
      (other in stateAfter <==> other in liveState) && (other in liveState ==> stateAfter[other] == liveState[other])
    ensures Subtree(after, At(archive, locs[s])) == SliceFile(liveState, id)
  {
    assert entries[..|locs|] == entries;
    forall i | 0 <= i < |locs|
      ensures Wanted(live, from, Lookup(entries, locs[i].key)) == Held(start, startState, locs[i], id)
      ensures locs[i].isSlice ==>
        WantedSlice(live, from, Lookup(entries, locs[i].key)) == if id in startState then Some(startState[id]) else None
    {
      LookupOwn(locs, entries, |locs|, i);
      SnapshotGivesBack(start, startState, locs[i], id, out, frozen, entries[i], live, from);
    }
    RestatedOnce(live, liveState, locs, id, from, entries, s, |locs|);
  }
}
