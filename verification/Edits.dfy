/** What each operation does to a sound volume, as values. */
module Edits {
  import opened Descriptors
  import opened FolderDesc
  import opened Layout
  import opened Extents
  import opened Directory
  import opened Volume

  /** The parts that an operation renews whatever it does: block 0 and the folder block. */
  ghost predicate Renewed(after: Disk, s: StorageDesc, root: nat, total: nat, p: nat, d: Folder) {
    && 0 in after && |after[0]| == BLOCK_SIZE && Described(after, root, total) && DescriptorOk(s, root, total)
    && p in after && Spelled(after[p], d)
  }

  lemma BlockSize(block: string, d: Folder)
    requires Spelled(block, d)
    ensures |block| == BLOCK_SIZE
  {
  }

  // ---- a new entry in a free run ----

  lemma FreeIsUnused(list: seq<Extent>, t: Tree, total: nat, e: Entry)
    requires Tracks(list, t) && RunFree(list, total, e.start, e.count) && e.start >= 1 && e.count >= 1
    ensures Unused(t, e) && Inside(e, t.root, total)
  {
    hide Covers, InSlot;
    forall x | Has(e, x) ensures !Owned(t, x) {
      assert !Covers(list, x) by { FreeBlock(list, total, e.start, e.count, x); }
    }
    FreeFits(list, total, e.start, e.count);
  }

  lemma FreeBlock(list: seq<Extent>, total: nat, start: nat, count: nat, x: int)
    requires RunFree(list, total, start, count) && start <= x < start + count
    ensures !Covers(list, x)
  {
  }

  lemma FreeFits(list: seq<Extent>, total: nat, start: nat, count: nat)
    requires RunFree(list, total, start, count)
    ensures start + count <= total
  {
  }

  lemma AddFileSound(before: Disk, s0: StorageDesc, list0: seq<Extent>, after: Disk, s: StorageDesc, list: seq<Extent>,
                     t: Tree, total: nat, p: nat, e: Entry)
    requires Sound(before, s0, t, total, list0) && p in t.folders && !e.isDir && FolderOk(Extended(t.folders[p], e))
    requires RunFree(list0, total, e.start, e.count) && e.start >= 1 && e.count >= 1
    requires forall x :: Covers(list, x) <==> Covers(list0, x) || Has(e, x)
    requires KeptBut(before, after, p, e) && RunReadable(after, e)
    requires Renewed(after, s, t.root, total, p, Extended(t.folders[p], e))
    ensures Sound(after, s, AddFile(t, p, e), total, list)
    ensures var n := |t.folders[p].entries|; Slot(AddFile(t, p, e), p, n) && EntryAt(AddFile(t, p, e), p, n) == e
    ensures FilesKept(t, before, after, p, |t.folders[p].entries|)
  {
    hide Covers, InSlot, Has, FoldersOk, SlotsOk, Apart, FolderOk, Holds, Present, KeptBut, Spelled, RunReadable, Described, RunFree;
    var u := AddFile(t, p, e);
    FreeIsUnused(list0, t, total, e);
    AddKeeps(t, total, p, e);
    AddSlot(t, p, e, p, |t.folders[p].entries|);
    forall x ensures Owned(u, x) <==> Owned(t, x) || Has(e, x) {
      AddOwned(t, p, e, x);
    }
    assert Respelled(after, t, u, p, e) by {
      forall f | f in u.folders
        ensures (f in t.folders && f != p && !Has(e, f) && u.folders[f] == t.folders[f]) || (f in after && Spelled(after[f], u.folders[f]))
      {
        FolderIsOwned(t, total, f);
      }
    }
    EditHolds(before, after, t, u, total, p, e);
    BlockSize(after[p], u.folders[p]);
    EditPresent(before, after, t, u, p, e);
    OthersKept(t, total, before, after, p, |t.folders[p].entries|, e);
  }

  lemma AddDirSound(before: Disk, s0: StorageDesc, list0: seq<Extent>, after: Disk, s: StorageDesc, list: seq<Extent>,
                    t: Tree, total: nat, p: nat, e: Entry, path: string)
    requires Sound(before, s0, t, total, list0) && p in t.folders && e.isDir && e.count == 1 && p in t.rank
    requires FolderOk(Extended(t.folders[p], e)) && FolderOk(Folder(path, []))
    requires RunFree(list0, total, e.start, e.count) && e.start >= 1
    requires forall x :: Covers(list, x) <==> Covers(list0, x) || Has(e, x)
    requires KeptBut(before, after, p, e) && e.start in after && Spelled(after[e.start], Folder(path, []))
    requires Renewed(after, s, t.root, total, p, Extended(t.folders[p], e))
    ensures Sound(after, s, AddDir(t, p, e, path), total, list)
    ensures var n := |t.folders[p].entries|; Slot(AddDir(t, p, e, path), p, n) && EntryAt(AddDir(t, p, e, path), p, n) == e
    ensures FilesKept(t, before, after, p, |t.folders[p].entries|)
  {
    hide Covers, InSlot, FoldersOk, SlotsOk, Apart, FolderOk, Holds, Present, KeptBut, Spelled, Described, RunFree;
    var u := AddDir(t, p, e, path);
    FreeIsUnused(list0, t, total, e);
    AddDirKeeps(t, total, p, e, path);
    AddSlot(Sprout(t, p, e.start, path), p, e, p, |t.folders[p].entries|);
    forall x ensures Owned(u, x) <==> Owned(t, x) || Has(e, x) {
      AddDirOwned(t, p, e, path, x);
    }
    assert Respelled(after, t, u, p, e) by {
      forall f | f in u.folders
        ensures (f in t.folders && f != p && !Has(e, f) && u.folders[f] == t.folders[f]) || (f in after && Spelled(after[f], u.folders[f]))
      {
        if f in t.folders { FolderIsOwned(t, total, f); }
      }
    }
    EditHolds(before, after, t, u, total, p, e);
    BlockSize(after[p], u.folders[p]);
    BlockSize(after[e.start], Folder(path, []));
    EditPresent(before, after, t, u, p, e);
    OthersKept(t, total, before, after, p, |t.folders[p].entries|, e);
  }

  // ---- another run for a file ----

  /** The new run lies in the old one or was free. */
  ghost predicate Fits(list: seq<Extent>, total: nat, o: Entry, e: Entry) {
    e.count >= 1 && ((e.start == o.start && e.count <= o.count) || (e.start >= 1 && RunFree(list, total, e.start, e.count)))
  }

  lemma FitsInside(list: seq<Extent>, t: Tree, total: nat, p: nat, k: nat, e: Entry)
    requires Tracks(list, t) && SlotsOk(t, total) && Slot(t, p, k) && Fits(list, total, EntryAt(t, p, k), e)
    ensures OwnRun(t, p, k, e) && Inside(e, t.root, total)
  {
    hide Slot, InSlot, Covers, RunFree;
    var o := EntryAt(t, p, k);
    assert Inside(o, t.root, total);
    if !(e.start == o.start && e.count <= o.count) {
      FreeIsUnused(list, t, total, e);
    }
  }

  lemma SetFileSound(before: Disk, s0: StorageDesc, list0: seq<Extent>, after: Disk, s: StorageDesc, list: seq<Extent>,
                     t: Tree, total: nat, p: nat, k: nat, e: Entry)
    requires Sound(before, s0, t, total, list0) && Slot(t, p, k) && !EntryAt(t, p, k).isDir && !e.isDir
    requires FolderOk(Changed(t.folders[p], k, e)) && Fits(list0, total, EntryAt(t, p, k), e)
    requires forall x :: Covers(list, x) <==> (Covers(list0, x) && !Has(EntryAt(t, p, k), x)) || Has(e, x)
    requires KeptBut(before, after, p, e) && RunReadable(after, e)
    requires Renewed(after, s, t.root, total, p, Changed(t.folders[p], k, e))
    ensures Sound(after, s, SetFile(t, p, k, e), total, list)
    ensures FilesKept(t, before, after, p, k)
  {
    hide Covers, InSlot, Has, FoldersOk, SlotsOk, Apart, FolderOk, Holds, Present, KeptBut, Spelled, RunReadable, Described, RunFree, Fits;
    var u := SetFile(t, p, k, e);
    FitsInside(list0, t, total, p, k, e);
    SetKeeps(t, total, p, k, e);
    forall x ensures Owned(u, x) <==> (Owned(t, x) && !Has(EntryAt(t, p, k), x)) || Has(e, x) {
      SetOwned(t, total, p, k, e, x);
    }
    assert Respelled(after, t, u, p, e) by {
      forall f | f in u.folders
        ensures (f in t.folders && f != p && !Has(e, f) && u.folders[f] == t.folders[f]) || (f in after && Spelled(after[f], u.folders[f]))
      {
        FolderIsOwned(t, total, f);
        FolderNotInFile(t, total, p, k, f);
      }
    }
    EditHolds(before, after, t, u, total, p, e);
    BlockSize(after[p], u.folders[p]);
    EditPresent(before, after, t, u, p, e);
    OthersKept(t, total, before, after, p, k, e);
  }

  // ---- an entry less ----

  const NOTHING := Entry("", false, 0, 0, false)

  lemma DropFileSound(before: Disk, s0: StorageDesc, list0: seq<Extent>, after: Disk, s: StorageDesc, list: seq<Extent>,
                      t: Tree, total: nat, p: nat, k: nat)
    requires Sound(before, s0, t, total, list0) && Slot(t, p, k) && !EntryAt(t, p, k).isDir
    requires forall x :: Covers(list, x) <==> Covers(list0, x) && !Has(EntryAt(t, p, k), x)
    requires KeptBut(before, after, p, NOTHING)
    requires Renewed(after, s, t.root, total, p, Shortened(t.folders[p], k))
    ensures Sound(after, s, Drop(t, p, k), total, list)
    ensures FilesKept(t, before, after, p, k)
  {
    hide Covers, InSlot, FoldersOk, SlotsOk, Apart, FolderOk, Holds, Present, KeptBut, Spelled, Described;
    var u := Drop(t, p, k);
    DropKeeps(t, total, p, k);
    forall x ensures Owned(u, x) <==> Owned(t, x) && !Has(EntryAt(t, p, k), x) {
      DropOwned(t, total, p, k, x);
    }
    assert Respelled(after, t, u, p, NOTHING);
    EditHolds(before, after, t, u, total, p, NOTHING);
    BlockSize(after[p], u.folders[p]);
    EditPresent(before, after, t, u, p, NOTHING);
    OthersKept(t, total, before, after, p, k, NOTHING);
  }

  lemma FolderEntry(t: Tree, total: nat, p: nat, k: nat)
    requires WellFormed(t, total) && Slot(t, p, k) && EntryAt(t, p, k).isDir
    ensures var e := EntryAt(t, p, k); e.count == 1 && e.start in t.folders && e.start != p && e.start != t.root
  {
    var e := EntryAt(t, p, k);
    assert Inside(e, t.root, total) && Below(t, p, e);
  }

  lemma DropDirSound(before: Disk, s0: StorageDesc, list0: seq<Extent>, after: Disk, s: StorageDesc, list: seq<Extent>,
                     t: Tree, total: nat, p: nat, k: nat)
    requires Sound(before, s0, t, total, list0) && Slot(t, p, k) && EntryAt(t, p, k).isDir
    requires var b := EntryAt(t, p, k).start; b in t.folders && t.folders[b].entries == []
    requires forall x :: Covers(list, x) <==> Covers(list0, x) && !Has(EntryAt(t, p, k), x)
    requires KeptBut(before, after, p, NOTHING)
    requires Renewed(after, s, t.root, total, p, Shortened(t.folders[p], k))
    ensures Sound(after, s, DropDir(t, p, k), total, list)
    ensures FilesKept(t, before, after, p, k)
  {
    hide Covers, InSlot, FoldersOk, SlotsOk, Apart, FolderOk, Holds, Present, KeptBut, Spelled, Described;
    var u := DropDir(t, p, k);
    FolderEntry(t, total, p, k);
    DropDirKeeps(t, total, p, k);
    forall x ensures Owned(u, x) <==> Owned(t, x) && !Has(EntryAt(t, p, k), x) {
      DropDirOwned(t, total, p, k, x);
    }
    assert Respelled(after, t, u, p, NOTHING);
    EditHolds(before, after, t, u, total, p, NOTHING);
    BlockSize(after[p], u.folders[p]);
    EditPresent(before, after, t, u, p, NOTHING);
    OthersKept(t, total, before, after, p, k, NOTHING);
  }
}
