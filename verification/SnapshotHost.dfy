/**
 A machine whose file system calls may fail: `copyTree` and `moveTree` of
 src/kshetra/snapshot.ts, the capture loop of `runFreeze` (src/cli/freeze.ts) and the
 archive and restore loops of `runRestore` (src/cli/restore.ts).
 */
module SnapshotHost {

  import opened FileTree
  import opened Prelude
  import opened Snapshot

  // ── the calls on the file system ───────────────────────────────────────────

  /** How a system call can fail on its own account; a broken one leaves debris where it wrote or deleted. */
  datatype Trouble = Refused | CrossDevice | Broken(debris: Fs)

  class Host {
    var files: Fs
    var state: Flags
    /** What befalls each system call, in the order they are made. */
    const trouble: nat -> Option<Trouble>
    var calls: nat

    constructor (files: Fs, state: Flags, trouble: nat -> Option<Trouble>)
      ensures this.files == files && this.state == state && this.trouble == trouble && calls == 0
    {
      this.files, this.state, this.trouble, calls := files, state, trouble, 0;
    }

    /** Nothing befalls any call. */
    ghost predicate Quiet() {
      forall i :: trouble(i).None?
    }

    method NextTrouble() returns (t: Option<Trouble>)
      modifies this`calls
      ensures Quiet() ==> t.None?
    {
      t := trouble(calls);
      calls := calls + 1;
    }

    method Mkdir(p: Path) returns (ok: bool)
      modifies this`files, this`calls
      ensures ok ==> CanMkdir(old(files), p) && files == WithDirs(old(files), p)
      ensures !ok ==> files == old(files)
      ensures Quiet() ==> (ok <==> CanMkdir(old(files), p))
    {
      var t := NextTrouble();
      ok := t.None? && CanMkdir(files, p);
      if ok {
        files := WithDirs(files, p);
      }
    }

    /** `copyTree`: its destination must not exist. Whatever happens, it touches nothing but its destination. */
    method CopyTree(src: Path, dest: Path) returns (ok: bool)
      modifies this`files, this`calls
      ensures ChangedOnlyAt(old(files), files, dest)
      ensures ok ==> CanCopy(old(files), src, dest) && Subtree(files, dest) == Subtree(old(files), src)
      ensures Quiet() ==> (ok <==> CanCopy(old(files), src, dest))
    {
      ok := Mkdir(Parent(dest));
      if !ok {
        return;
      }
      WithDirsLook(old(files), Parent(dest), src);
      WithDirsLook(old(files), Parent(dest), dest);
      ParentAbove(src, dest);
      WithDirsTouches(old(files), dest);
      var t := NextTrouble();
      ok := t.None? && src in files && dest !in files && Apart(src, dest);
      if ok {
        BelowIsSubtree(files, src);
        KeepsApart(old(files), files, dest, dest, src);
        GraftIsAt(old(files), dest, Below(files, src));
        files := Graft(files, dest, Below(files, src));
      } else if t.Some? && t.value.Broken? {
        GraftIsAt(old(files), dest, t.value.debris);
        files := Graft(files, dest, t.value.debris);
      }
    }

    /** `rmSync(p, { recursive: true, force: true })` */
    method RemoveTree(p: Path) returns (ok: bool)
      modifies this`files, this`calls
      ensures ChangedOnlyAt(old(files), files, p)
      ensures ok ==> Subtree(files, p) == imap[]
      ensures Quiet() ==> ok
    {
      var t := NextTrouble();
      ok := t.None?;
      if ok {
        GraftIsAt(files, p, map[]);
        files := Graft(files, p, map[]);
      } else if t.value.Broken? {
        GraftIsAt(files, p, t.value.debris);
        files := Graft(files, p, t.value.debris);
      }
    }

    /** `moveTree`: a rename, or across devices a copy and a removal. However it fails, the tree stands whole somewhere. */
    method MoveTree(src: Path, dest: Path) returns (ok: bool)
      requires Apart(src, dest)
      modifies this`files, this`calls
      ensures Touches(old(files), files, src, dest)
      ensures ok ==> CanCopy(old(files), src, dest)
      ensures ok ==> Subtree(files, dest) == Subtree(old(files), src) && Subtree(files, src) == imap[]
      ensures Subtree(files, src) == Subtree(old(files), src) || Subtree(files, dest) == Subtree(old(files), src)
      ensures Quiet() ==> (ok <==> CanCopy(old(files), src, dest))
    {
      ok := Mkdir(Parent(dest));
      if !ok {
        return;
      }
      WithDirsTouches(old(files), dest);
      WithDirsLook(old(files), Parent(dest), src);
      WithDirsLook(old(files), Parent(dest), dest);
      ParentAbove(src, dest);
      KeepsApart(old(files), files, dest, dest, src);
      ghost var made := files;
      var t := NextTrouble();
      if t.None? {
        ok := src in files && dest !in files;
        if ok {
          Rename(src, dest);
          TouchesBoth(old(files), made, files, src, dest);
        }
      } else if t.value.CrossDevice? {
        ok := CopyThenRemove(src, dest);
        TouchesBoth(old(files), made, files, src, dest);
        if ok {
          AfterMkdir(old(files), src, dest);
        }
      } else {
        ok := false;
      }
    }

    method Rename(src: Path, dest: Path)
      requires Apart(src, dest)
      modifies this`files
      ensures Touches(old(files), files, src, dest)
      ensures Subtree(files, dest) == Subtree(old(files), src) && Subtree(files, src) == imap[]
    {
      hide Graft, Below, Subtree, AsTree, ChangedOnlyAt;
      ghost var before, copied := files, Graft(files, dest, Below(files, src));
      BelowIsSubtree(before, src);
      GraftIsAt(before, dest, Below(before, src));
      GraftIsAt(copied, src, map[]);
      EmptyTree();
      files := Renamed(files, src, dest);
      KeepsApart(copied, files, src, src, dest);
      TouchesBoth(before, copied, files, src, dest);
    }

    method CopyThenRemove(src: Path, dest: Path) returns (ok: bool)
      requires Apart(src, dest)
      modifies this`files, this`calls
      ensures Touches(old(files), files, src, dest)
      ensures ok ==> CanCopy(old(files), src, dest)
      ensures ok ==> Subtree(files, dest) == Subtree(old(files), src) && Subtree(files, src) == imap[]
      ensures Subtree(files, src) == Subtree(old(files), src) || Subtree(files, dest) == Subtree(old(files), src)
    {
      ok := CopyTree(src, dest);
      KeepsApart(old(files), files, dest, dest, src);
      if !ok {
        return;
      }
      ghost var copied := files;
      ok := RemoveTree(src);
      KeepsApart(copied, files, src, src, dest);
      TouchesBoth(old(files), copied, files, src, dest);
    }

    method WriteFile(p: Path, content: Content) returns (ok: bool)
      modifies this`files, this`calls
      ensures ChangedOnlyAt(old(files), files, p)
      ensures ok ==> Subtree(files, p) == imap[[] := File(content)]
      ensures Quiet() ==> (ok <==> CanWrite(old(files), p))
    {
      var t := NextTrouble();
      ok := t.None? && CanWrite(files, p);
      if ok {
        GraftIsAt(files, p, map[[] := File(content)]);
        OneFile(content);
        files := Graft(files, p, map[[] := File(content)]);
      } else if t.Some? && t.value.Broken? {
        GraftIsAt(files, p, t.value.debris);
        files := Graft(files, p, t.value.debris);
      }
    }

    // ── freeze ───────────────────────────────────────────────────────────────

    /** Captures one location under `out`, an existing directory. */
    method FreezeOne(loc: Location, id: string, out: Path) returns (ok: bool, entry: Entry)
      requires Look(files, out) == Some(Dir) && CanMkdir(files, out) && (!loc.isSlice ==> Apart(out, loc.path))
      modifies this`files, this`calls
      ensures ChangedOnlyAt(old(files), files, At(out, loc))
      ensures ok ==> EntryOf(old(files), state, loc, id, entry)
      ensures ok && entry.present ==> Subtree(files, At(out, loc)) == Held(old(files), state, loc, id)
      ensures Quiet() ==> (ok <==> CanFreezeOne(old(files), state, loc, id, out))
    {
      assert Parent(At(out, loc)) == out;
      if loc.isSlice {
        var present := id in state;
        entry := Entry(loc.key, present, Slot(loc));
        ok := true;
        if present {
          ok := WriteFile(At(out, loc), SliceJson(Some(state[id])));
        }
        return;
      }
      RootLook(files, loc.path);
      SlotBeside(out, loc, loc.path);
      var present := loc.path in files;
      entry := Entry(loc.key, present, Slot(loc));
      ok := present || !loc.required;
      if present {
        ok := CopyTree(loc.path, At(out, loc));
      }
    }

    /**
     The capture loop. However it ends, the locations are as they were; and nothing
     befalling its calls, it succeeds exactly when what must be there is there and
     the snapshot's place is free.
     */
    method RunFreeze(locs: seq<Location>, id: string, out: Path) returns (ok: bool, entries: seq<Entry>)
      requires Layout(locs) && Beside(locs, out)
      modifies this`files, this`calls
      ensures ok ==> Frozen(old(files), state, locs, id, out, files, entries)
      ensures SameLocations(old(files), files, locs)
      ensures Quiet() ==> (ok <==> Freezable(old(files), state, locs, id, out))
    {
      entries := [];
      ok := Mkdir(out);
      if !ok {
        return;
      }
      MkdirFreezes(old(files), locs, out);
      for i := 0 to |locs|
        invariant ok && |entries| == i && FreezingUpTo(old(files), locs, out, files, i)
        invariant forall j :: 0 <= j < i ==> FrozenAt(old(files), state, locs[j], id, out, files, entries[j])
        invariant Quiet() ==> forall j :: 0 <= j < i ==> CanFreezeOne(old(files), state, locs[j], id, out)
      {
        ghost var before := files;
        var entry;
        ok, entry := FreezeOne(locs[i], id, out);
        FreezeStep(old(files), locs, out, before, files, i);
        SameFreezable(old(files), before, state, locs, id, out, i);
        if !ok {
          return;
        }
        entries := entries + [entry];
      }
    }

    // ── restore ──────────────────────────────────────────────────────────────

    /** Moves one location's present state into the archive, an existing directory; failing, it loses nothing. */
    method ArchiveOne(loc: Location, id: string, archive: Path) returns (ok: bool)
      requires Look(files, archive) == Some(Dir) && CanMkdir(files, archive) && At(archive, loc) !in files
      requires !loc.isSlice ==> Apart(archive, loc.path)
      modifies this`files, this`calls
      ensures Touches(old(files), files, At(archive, loc), Zone(loc, archive))
      ensures ok ==> ArchivesOne(old(files), files, state, loc, id, archive)
      ensures !loc.isSlice ==>
        Subtree(files, loc.path) == Subtree(old(files), loc.path) || Subtree(files, At(archive, loc)) == Subtree(old(files), loc.path)
      ensures Quiet() ==> ok
    {
      assert Parent(At(archive, loc)) == archive;
      if loc.isSlice {
        ok := WriteFile(At(archive, loc), SliceJson(if id in state then Some(state[id]) else None));
        return;
      }
      ok := true;
      if loc.path in files {
        SlotBeside(archive, loc, loc.path);
        ok := MoveTree(loc.path, At(archive, loc));
      }
    }

    /** The archive loop: every location's present state goes under `archive`, and stands there or in its place at any failure. */
    method ArchiveAll(ghost start: Fs, locs: seq<Location>, id: string, ghost from: Path, archive: Path) returns (ok: bool)
      requires Layout(locs) && Beside(locs, archive) && Beside(locs, from) && Apart(archive, from) && Whole(start, locs)
      requires ArchivedUpTo(start, state, locs, id, from, archive, files, 0)
      modifies this`files, this`calls
      ensures ok ==> ArchivedUpTo(start, state, locs, id, from, archive, files, |locs|)
      ensures TreesStand(start, files, locs, archive)
      ensures Quiet() ==> ok
    {
      ok := true;
      for i := 0 to |locs|
        invariant ok && ArchivedUpTo(start, state, locs, id, from, archive, files, i)
      {
        ghost var before := files;
        RootLook(files, At(archive, locs[i]));
        ok := ArchiveOne(locs[i], id, archive);
        if !ok {
          ArchiveFails(start, state, locs, id, from, archive, before, files, i);
          return;
        }
        ArchiveStep(start, state, locs, id, from, archive, before, files, i);
      }
      ArchiveOutlives(start, state, locs, id, from, archive, files, files, state);
    }

    /** Puts one location back: cleared, then copied from the snapshot where it was captured. */
    method RestoreOne(loc: Location, id: string, from: Path, entries: seq<Entry>) returns (ok: bool)
      requires !loc.isSlice ==> Apart(from, loc.path)
      modifies this`files, this`state, this`calls
      ensures if loc.isSlice then files == old(files) else ChangedOnlyAt(old(files), files, loc.path)
      ensures if ok then RestoresOne(old(files), old(state), files, state, loc, id, from, entries) else state == old(state)
      ensures Quiet() ==> (ok <==> CanRestoreOne(old(files), loc, from, Lookup(entries, loc.key)))
    {
      var entry := Lookup(entries, loc.key);
      if loc.isSlice {
        var t := NextTrouble();
        ok := t.None? && SliceReadable(files, from, entry);
        if ok {
          state := state[id := Reset(WantedSlice(files, from, entry))];
        }
        return;
      }
      ok := RemoveTree(loc.path);
      if ok && entry.Some? && entry.value.present {
        ok := CopyBack(old(files), loc.path, from, entry.value.slot);
      }
    }

    /** The copy from the snapshot into the place just cleared. */
    method CopyBack(ghost before: Fs, path: Path, from: Path, slot: string) returns (ok: bool)
      requires Apart(from, path) && ChangedOnlyAt(before, files, path) && Subtree(files, path) == imap[]
      modifies this`files, this`calls
      ensures ChangedOnlyAt(before, files, path)
      ensures ok ==> Subtree(files, path) == Subtree(before, from + [slot])
      ensures Quiet() ==> (ok <==> from + [slot] in before && CanMkdir(before, Parent(path)))
    {
      ghost var cleared := files;
      ApartBelow(from, path, [slot]);
      KeepsApart(before, files, path, path, from + [slot]);
      SamePresence(before, files, from + [slot]);
      RootLook(files, path);
      KeepsMkdir(before, files, path, path, Parent(path));
      ok := CopyTree(from + [slot], path);
      TouchesBoth(before, cleared, files, path, path);
    }

    /** The restore loop. Whatever happens to it, the archive is left alone. */
    method RestoreAll(locs: seq<Location>, id: string, from: Path, archive: Path, entries: seq<Entry>) returns (ok: bool)
      requires Layout(locs) && Beside(locs, archive) && Beside(locs, from)
      modifies this`files, this`state, this`calls
      ensures ok ==> RestoredUpTo(old(files), old(state), locs, id, from, archive, entries, files, state, |locs|)
      ensures SameSlots(old(files), files, locs, archive)
      ensures OthersKept(old(state), state, id)
      ensures Quiet() ==>
        (ok <==> forall i :: 0 <= i < |locs| ==> CanRestoreOne(old(files), locs[i], from, Lookup(entries, locs[i].key)))
    {
      hide RestoresOne, CanRestoreOne, Lookup, Subtree, Layout, Apart;
      ok := true;
      for i := 0 to |locs|
        invariant ok && RestoredUpTo(old(files), old(state), locs, id, from, archive, entries, files, state, i)
        invariant Quiet() ==>
          forall j :: 0 <= j < i ==> CanRestoreOne(old(files), locs[j], from, Lookup(entries, locs[j].key))
      {
        ghost var before, stateBefore := files, state;
        SameRestorable(old(files), before, locs, i, from, Lookup(entries, locs[i].key));
        ok := RestoreOne(locs[i], id, from, entries);
        if !ok {
          RestoreStops(locs, i, archive, from, old(files), before, files);
          return;
        }
        RestoreStep(old(files), old(state), locs, id, from, archive, entries, before, stateBefore, files, state, i);
      }
    }

    /**
     `runRestore` between its guards and `--clean`. At whatever call it fails, it can
     be undone: every location's tree from before stands in its place or in the
     archive, and so do the flags. Nothing befalling its calls, it succeeds exactly
     when the archive can be made, what the snapshot captured is in it and readable,
     and nothing above a location to be put back is a file.
     */
    method RunRestore(locs: seq<Location>, id: string, from: Path, archive: Path, entries: seq<Entry>) returns (ok: bool)
      requires Layout(locs) && Beside(locs, archive) && Beside(locs, from) && Apart(archive, from)
      requires IsTree(files) && EmptySlots(files, locs, archive)
      modifies this`files, this`state, this`calls
      ensures ok ==> Restored(old(files), old(state), locs, id, from, archive, entries, files, state)
      ensures Reversible(old(files), old(state), files, state, locs, id, archive)
      ensures Quiet() ==> (ok <==> Restorable(old(files), locs, from, archive, entries))
    {
      ok := Mkdir(archive);
      if !ok {
        return;
      }
      MkdirKeeps(old(files), state, locs, id, from, archive);
      ok := ArchiveAll(old(files), locs, id, from, archive);
      if !ok {
        return;
      }
      ghost var archived := files;
      forall i | 0 <= i < |locs|
        ensures CanRestoreOne(archived, locs[i], from, Lookup(entries, locs[i].key))
           <==> CanRestoreOne(old(files), locs[i], from, Lookup(entries, locs[i].key))
      {
        SameRestorable(old(files), archived, locs, i, from, Lookup(entries, locs[i].key));
      }
      ok := RestoreAll(locs, id, from, archive, entries);
      ArchiveOutlives(old(files), old(state), locs, id, from, archive, archived, files, state);
      if ok {
        RestoreComposes(old(files), archived, old(state), locs, id, from, archive, entries, files, state);
      }
    }
  }
}
