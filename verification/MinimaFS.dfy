/** The operations of MinimaFS on a mounted volume. Each keeps the directory tree, the disk and the extent list
    in step. */
module MinimaFS {
  import opened Options
  import opened Tags
  import opened Descriptors
  import opened FileHeader
  import opened FileLength
  import opened FolderDesc
  import opened Layout
  import opened Image
  import opened Append
  import opened Files
  import opened Extents
  import opened Directory
  import opened Paths
  import opened Volume
  import opened Edits
  import opened Effects
  import opened Moves

  /** The reuse, shrink or move step of minimafs_write_file_to_disk_segments. */
  method Place(a: Allocator, o: Entry, need: nat) returns (start: nat)
    requires a.Valid() && need > 0 && InUse(a.List(), o.start, o.count) && o.start < NO_BLOCK
    modifies a, a.ext
    ensures a.Valid() && a.total == old(a.total) && (a.ext == old(a.ext) || fresh(a.ext))
    ensures start == NO_BLOCK ==>
              && a.List() == old(a.List()) && a.free == old(a.free)
              && NoSpace(old(a.List()), a.total, need) && (o.start == 0 || o.count < need)
    ensures start != NO_BLOCK ==>
              var e := o.(start := start, count := need);
              Lands(old(a.List()), a.total, o, e) && Exchanged(old(a.List()), a.List(), o, e)
  {
    hide Covers, RunFree, IsUnion, IsDifference, Exchanged, NoSpace;
    ghost var list0 := a.List();
    ghost var e := o.(start := o.start, count := need);
    if o.start != 0 && o.count >= need {
      Shrunk(list0, list0, o, e);
      if o.count > need {
        a.FreeRun(o.start + need, o.count - need);
        Shrunk(list0, a.List(), o, e);
      }
      start := o.start;
    } else {
      start := a.AllocRun(need);
      if start == NO_BLOCK {
        FullList(list0, a.total, need);
        return;
      }
      e := o.(start := start, count := need);
      ghost var mid := a.List();
      Moved(list0, mid, mid, a.total, o, e);
      if o.count > 0 {
        a.FreeRun(o.start, o.count);
        Moved(list0, mid, a.List(), a.total, o, e);
      }
    }
  }

  /** minimafs_find_entry_in_folder. */
  method FindEntry(entries: seq<Entry>, name: string) returns (k: nat)
    ensures k == FirstNamed(entries, name)
  {
    k := 0;
    while k < |entries| && entries[k].name != name
      invariant 0 <= k <= |entries| && forall j :: 0 <= j < k ==> entries[j].name != name
    {
      k := k + 1;
    }
    var first := FirstNamed(entries, name);
  }

  /** The search loop of minimafs_get_folder_block. */
  method FindFolder(entries: seq<Entry>, name: string) returns (k: nat)
    ensures k == FirstFolder(entries, name)
  {
    k := 0;
    while k < |entries| && !(entries[k].isDir && entries[k].name == name)
      invariant 0 <= k <= |entries| && forall j :: 0 <= j < k ==> entries[j].name != name || !entries[j].isDir
    {
      k := k + 1;
    }
    var first := FirstFolder(entries, name);
  }

  /** A run was written for an entry that is not yet in its folder. */
  ghost predicate Staged(a: Moment, disk: Disk, storage: StorageDesc, list: seq<Extent>, total: nat, o: Entry, e: Entry, text: string) {
    && RunOnly(a.disk, disk, e) && RunReadable(disk, e) && RunHolds(disk, e.start, e.count, text)
    && e.count > 0 && Lands(a.list, total, o, e) && Exchanged(a.list, list, o, e)
    && 0 in disk && |disk[0]| == BLOCK_SIZE && Described(disk, a.tree.root, total) && DescriptorOk(storage, a.tree.root, total)
    && Reported(disk, storage, total, list)
  }

  /** What the first lookup of an operation found. */
  ghost predicate Found(t: Tree, path: string, p: nat, k: nat, d: Folder) {
    Target(t, path) == Some((p, k)) && p in t.folders && d == t.folders[p] && k <= |d.entries|
  }

  class Drive {
    var disk: Disk
    const alloc: Allocator
    var storage: StorageDesc
    ghost var tree: Tree

    /** The state, as a value. */
    ghost function Now(): Moment
      reads this, alloc, alloc.ext
    {
      Moment(disk, storage, tree, if alloc.n <= alloc.ext.Length then alloc.List() else [])
    }

    ghost predicate Valid()
      reads this, alloc, alloc.ext
    {
      alloc.Valid() && SoundAt(Now(), alloc.total)
    }

    /** A drive whose allocator was initialised and whose descriptor was read or filled in. */
    constructor (disk: Disk, storage: StorageDesc, ghost tree: Tree)
      requires storage.totalBlocks <= MAX_BLOCKS
      ensures this.disk == disk && this.storage == storage && this.tree == tree
      ensures fresh(alloc) && alloc.Valid() && fresh(alloc.ext)
      ensures alloc.total == storage.totalBlocks && alloc.List() == []
    {
      alloc := new Allocator(storage.totalBlocks);
      this.disk, this.storage, this.tree := disk, storage, tree;
    }

    /** minimafs_refresh_storage_desc. */
    method Refresh(now: string)
      requires alloc.Valid() && DescriptorOk(storage, storage.rootBlock, alloc.total) && storage.rootBlock > 0 && Date(now)
      modifies this`disk, this`storage
      ensures OnlyZero(old(disk), disk) && 0 in disk && |disk[0]| == BLOCK_SIZE
      ensures storage.rootBlock == old(storage.rootBlock) && DescriptorOk(storage, storage.rootBlock, alloc.total)
      ensures Described(disk, storage.rootBlock, alloc.total)
      ensures Reported(disk, storage, alloc.total, alloc.List()) && Recounted(old(storage), storage, now)
    {
      hide ParseStorage, PrintStorage, CString, Clean, BlockOf, Canonical, Within, Sum;
      var used := alloc.total - alloc.free;
      storage := storage.(freeBlocks := alloc.free, usedBlocks := used, usedSize := used * BLOCK_SIZE,
                          freeSize := storage.totalSize - used * BLOCK_SIZE, lastMounted := now);
      StorageReads(storage);
      disk := disk[0 := BlockOf(PrintStorage(storage), 0)];
    }

    /** minimafs_write_folder_desc. */
    method WriteDesc(block: nat, d: Folder) returns (ok: bool)
      requires FolderOk(d) && d.path != []
      modifies this`disk
      ensures ok <==> FolderFits(d)
      ensures !ok ==> disk == old(disk)
      ensures ok ==> block in disk && Spelled(disk[block], d) && disk == old(disk)[block := disk[block]]
    {
      hide FolderOk, FolderFits, ParseFolder, CString, FolderText, BlockOf;
      var text := WriteFolder(d);
      ok := text.Some?;
      if ok {
        FolderReads(d);
        disk := disk[block := BlockOf(text.value, 0)];
      }
    }

    /** minimafs_get_folder_block. */
    method Walk(path: string) returns (block: Option<nat>)
      requires WellFormed(tree, alloc.total) && Holds(disk, tree) && storage.rootBlock == tree.root
      ensures block == Lead(tree, path)
    {
      hide Components, Owned;
      WellRanked(tree, alloc.total);
      var names, current := Components(path), storage.rootBlock;
      for i := 0 to |names|
        invariant current in tree.folders
        invariant WalkFrom(tree, current, names[i..]) == WalkFrom(tree, tree.root, names)
      {
        var desc := ReadFolder(CString(disk[current]));
        var k := FindFolder(desc.entries, names[i]);
        assert desc == tree.folders[current] && names[i..][1..] == names[i + 1..];
        if k == |desc.entries| { return None; }
        assert Slot(tree, current, k);
        current := desc.entries[k].start;
      }
      block := Some(current);
    }

    /** minimafs_read_folder_desc. */
    method ReadDesc(path: string) returns (r: Option<(nat, Folder)>)
      requires WellFormed(tree, alloc.total) && Holds(disk, tree) && storage.rootBlock == tree.root
      ensures r.None? <==> Lead(tree, path) == None
      ensures r.Some? ==> Lead(tree, path) == Some(r.value.0) && r.value.1 == tree.folders[r.value.0]
    {
      hide Lead;
      var block := Walk(path);
      if block == None { return None; }
      var desc := ReadFolder(CString(disk[block.value]));
      if desc.path == [] { desc := desc.(path := path); }
      r := Some((block.value, desc));
    }

    /** The lookup that the operations start with. */
    method LookUp(path: string) returns (r: Option<(nat, nat, Folder)>)
      requires WellFormed(tree, alloc.total) && Holds(disk, tree) && storage.rootBlock == tree.root
      ensures r.None? <==> Target(tree, path) == None
      ensures r.Some? ==> Found(tree, path, r.value.0, r.value.1, r.value.2)
    {
      hide Lead, Holds, FoldersOk, SlotsOk, Apart, Parent, Name;
      var read := ReadDesc(Parent(path));
      if read == None { return None; }
      var k := FindEntry(read.value.1.entries, Name(path));
      r := Some((read.value.0, k, read.value.1));
    }

    // ---- removing ----

    /** minimafs_delete_file. */
    method Delete(path: string, now: string) returns (outcome: Outcome)
      requires Valid() && Date(now)
      modifies this, alloc, alloc.ext
      ensures Valid() && alloc.total == old(alloc.total) && (alloc.ext == old(alloc.ext) || fresh(alloc.ext))
      ensures storage == old(storage) || Recounted(old(storage), storage, now)
      ensures DeleteEffect(old(Now()), Now(), path, outcome)
    {
      hide WellFormed, Covers, Holds, Present, Tracks, Described, Reported, Recounted, Target, FilesKept, FolderOk, FolderFits, Good;
      SoundParts(disk, storage, tree, alloc.total, alloc.List());
      var found := LookUp(path);
      if found == None { return Refused; }
      var (p, k, d) := found.value;
      if k == |d.entries| { return Refused; }
      if d.entries[k].isDir { return Refused; }
      var e := d.entries[k];
      ghost var t, s0, list0 := tree, storage, alloc.List();
      assert Slot(t, p, k) && EntryAt(t, p, k) == e;
      SlotParts(disk, t, alloc.total, p, k);
      if e.count > 0 { alloc.FreeRun(e.start, e.count); }
      Refresh(now);
      ghost var mid := disk;
      var ok := WriteDesc(p, Shortened(d, k));
      DescribedKept(mid, disk, t.root, alloc.total);
      ReportedKept(mid, disk, storage, alloc.total, alloc.List());
      DropFileSound(old(disk), s0, list0, disk, storage, alloc.List(), t, alloc.total, p, k);
      tree := Drop(tree, p, k);
      outcome := Done;
    }

    /** minimafs_rmdir. */
    method Rmdir(path: string, now: string) returns (outcome: Outcome)
      requires Valid() && Date(now)
      modifies this, alloc, alloc.ext
      ensures Valid() && alloc.total == old(alloc.total) && (alloc.ext == old(alloc.ext) || fresh(alloc.ext))
      ensures storage == old(storage) || Recounted(old(storage), storage, now)
      ensures RmdirEffect(old(Now()), Now(), path, outcome)
    {
      hide WellFormed, Covers, Holds, Present, Tracks, Described, Reported, Recounted, Target, FilesKept, FolderOk, FolderFits, Good, Lead;
      SoundParts(disk, storage, tree, alloc.total, alloc.List());
      if IsRoot(path) { return Refused; }
      var target := ReadDesc(path);
      if target == None || |target.value.1.entries| > 0 { return Refused; }
      var found := LookUp(path);
      if found == None { return Refused; }
      var (p, k, d) := found.value;
      if k == |d.entries| || !d.entries[k].isDir { return Refused; }
      ghost var t, s0, list0 := tree, storage, alloc.List();
      assert Slot(t, p, k);
      TargetFolder(t, path, target.value.0);
      SlotParts(disk, t, alloc.total, p, k);
      FolderEntry(t, alloc.total, p, k);
      var freed := d.entries[k].start;
      var ok := WriteDesc(p, Shortened(d, k));
      if freed != 0 { alloc.FreeRun(freed, 1); }
      Refresh(now);
      DropDirSound(old(disk), s0, list0, disk, storage, alloc.List(), t, alloc.total, p, k);
      tree := DropDir(tree, p, k);
      outcome := Done;
    }

    // ---- new folders ----

    /** minimafs_mkdir. */
    method Mkdir(path: string, now: string) returns (outcome: Outcome)
      requires Valid() && Date(now) && PathOk(path) && |Name(path)| < MAX_NAME
      modifies this, alloc, alloc.ext
      ensures Valid() && alloc.total == old(alloc.total) && (alloc.ext == old(alloc.ext) || fresh(alloc.ext))
      ensures storage == old(storage) || Recounted(old(storage), storage, now)
      ensures MkdirEffect(old(Now()), Now(), alloc.total, path, outcome)
    {
      hide WellFormed, Covers, Holds, Present, Tracks, Described, Reported, Recounted, Target, FilesKept, FolderOk, FolderFits, Good, PathOk,
           RunFree, Spelled, KeptBut, Name, NoSpace, HasRoom, FolderMade;
      SoundParts(disk, storage, tree, alloc.total, alloc.List());
      if IsRoot(path) { return Done; }
      if Name(path) == [] { return Refused; }
      var found := LookUp(path);
      if found == None { return Refused; }
      var (p, k, d) := found.value;
      if k < |d.entries| { return if d.entries[k].isDir then Done else Refused; }
      ghost var a, list0, free0 := Now(), alloc.List(), alloc.free;
      var block := alloc.AllocRun(1);
      if block == NO_BLOCK {
        FullList(list0, alloc.total, 1);
        return Refused;
      }
      FoundSpace(list0, alloc.total, block, 1);
      var ok := EnterFolder(path, now, p, k, d, block, a);
      if !ok {
        GiveBack(block, 1, list0, free0);
        return Refused;
      }
      outcome := Done;
    }

    /** The new folder is entered in its parent, if that has room, and written to the block taken for it. */
    method EnterFolder(path: string, now: string, p: nat, k: nat, d: Folder, block: nat, ghost a: Moment) returns (ok: bool)
      requires alloc.Valid() && SoundAt(a, alloc.total) && disk == a.disk && storage == a.storage && tree == a.tree
      requires Date(now) && PathOk(path) && |Name(path)| < MAX_NAME && !IsRoot(path) && Found(tree, path, p, k, d) && k == |d.entries|
      requires FirstFree(a.list, alloc.total, block, 1) && IsUnion(alloc.List(), a.list, block, block + 1)
      modifies this`disk, this`storage, this`tree
      ensures ok <==> HasRoom(d)
      ensures !ok ==> unchanged(this)
      ensures ok ==> Valid() && FolderMade(a, Now(), alloc.total, path) && Recounted(a.storage, storage, now)
    {
      hide WellFormed, Covers, Holds, Present, Tracks, Described, Reported, Recounted, Target, FilesKept, FolderOk, FolderFits, Good, PathOk,
           RunFree, Spelled, KeptBut, Name, HasRoom, FirstFree;
      ghost var t, total := tree, alloc.total;
      SoundParts(disk, storage, tree, total, a.list);
      FoundSpace(a.list, total, block, 1);
      if |d.entries| >= MAX_ENTRIES {
        FullHasNoRoom(d);
        return false;
      }
      var e := Entry(Name(path), true, block, 1, false);
      NewEntryOk(disk, t, total, p, e, path, a.list);
      ok := WriteDesc(p, Extended(d, e));
      if !ok { return; }
      ghost var mid := disk;
      NewFolderOk(path);
      var written := WriteDesc(block, Folder(path, []));
      ghost var last := disk;
      Refresh(now);
      NewFolderKept(a.disk, mid, last, disk, t, total, a.list, p, e);
      AddDirSound(a.disk, a.storage, a.list, disk, storage, alloc.List(), t, total, p, e, path);
      tree := AddDir(tree, p, e, path);
    }

    /** Frees a run that was just taken. */
    method GiveBack(start: nat, count: nat, ghost list0: seq<Extent>, ghost free0: nat)
      requires alloc.Valid() && Good(list0, alloc.total, free0) && RunFree(list0, alloc.total, start, count)
      requires IsUnion(alloc.List(), list0, start, start + count)
      modifies alloc, alloc.ext
      ensures alloc.Valid() && alloc.total == old(alloc.total) && (alloc.ext == old(alloc.ext) || fresh(alloc.ext))
      ensures alloc.List() == list0
    {
      hide Covers, Good, RunFree;
      alloc.FreeRun(start, count);
      TakenAndFreed(list0, alloc.List(), alloc.total, free0, alloc.free, start, count);
    }

    // ---- files ----

    /** minimafs_write_file_to_disk_segments. */
    method WriteToDisk(m: FileMeta, o: Entry, seg1: string, seg2: string, now: string) returns (start: nat, count: nat)
      requires Valid() && MetaOk(m) && Date(now) && SizeOk(|seg1| + |seg2|) && InUse(alloc.List(), o.start, o.count) && o.start < NO_BLOCK
      requires o.count > 0 ==> o.start >= 1
      modifies this`disk, this`storage, alloc, alloc.ext
      ensures alloc.Valid() && alloc.total == old(alloc.total) && (alloc.ext == old(alloc.ext) || fresh(alloc.ext))
      ensures count == FileBlocks(m, |seg1| + |seg2|) > 0
      ensures start == NO_BLOCK ==> Now() == old(Now()) && NoSpace(old(alloc.List()), alloc.total, count) && o.count < count
      ensures start != NO_BLOCK ==> Recounted(old(storage), storage, now)
      ensures start != NO_BLOCK ==>
                && !(NoSpace(old(alloc.List()), alloc.total, count) && o.count < count)
                && Staged(old(Now()), disk, storage, alloc.List(), alloc.total, o, o.(start := start, count := count),
                          FileText(SettledMeta(m, |seg1| + |seg2|), seg1 + seg2))
                && IsFile(disk, start, count, SettledMeta(m, |seg1| + |seg2|), seg1 + seg2)
    {
      hide PrintHeader, IsFile, Written, Described, Reported, Recounted, SettledMeta, WrappedMeta, WrappedCount, FileSize, MetaOk, RunFree, Covers, InUse, NoSpace, WellFormed, Tracks,
           Holds, Present, Exchanged, RunOnly, RunReadable, RunHolds;
      SoundParts(disk, storage, tree, alloc.total, alloc.List());
      ghost var list0, before := alloc.List(), disk;
      var meta, header := SettleHeader(m, |seg1| + |seg2|);
      SizeBound(m, |seg1| + |seg2|);
      SettledNoWrap(m, |seg1| + |seg2|);
      count := WrappedCount(|header| + |seg1| + |seg2| + FOOTER_SIZE);
      CountFits(|header| + |seg1| + |seg2| + FOOTER_SIZE);
      start := Place(alloc, o, count);
      if start == NO_BLOCK { return; }
      ghost var e := o.(start := start, count := count);
      LandsSpace(list0, alloc.total, o, e);
      disk := WriteImage(disk, start, count, header, seg1, seg2);
      assert header + seg1 + seg2 == header + (seg1 + seg2);
      ghost var mid := disk;
      Refresh(now);
      RunThenZero(before, mid, disk, e, FileText(meta, seg1 + seg2));
      WrittenIsFile(disk, start, count, m, seg1 + seg2);
    }
  
    /** The entry of a file that was just written is added to its folder, if that has room. */
    method EnterNew(path: string, p: nat, k: nat, d: Folder, start: nat, count: nat, ghost a: Moment, ghost m: FileMeta, ghost data: string)
      returns (outcome: Outcome)
      requires alloc.Valid() && SoundAt(a, alloc.total) && tree == a.tree && Found(tree, path, p, k, d) && PathOk(path)
      requires count == FileBlocks(m, |data|)
      requires Staged(a, disk, storage, alloc.List(), alloc.total, NOTHING, NewEntry(path, start, count), FileText(SettledMeta(m, |data|), data))
      requires IsFile(disk, start, count, SettledMeta(m, |data|), data)
      modifies this`disk, this`tree
      ensures outcome == if HasRoom(d) then Done else Lost
      ensures outcome == Done ==> Valid() && FileMade(a, Now(), alloc.total, path, m, data)
      ensures outcome == Lost ==> FileLost(a, Now(), alloc.total, path, m, data)
    {
      hide WellFormed, Covers, Holds, Present, Tracks, Described, Reported, Recounted, Target, FilesKept, FolderOk, FolderFits, Good, PathOk, KeptBut,
           RunFree, Spelled, IsFile, RunReadable, RunOnly, RunHolds, NoSpace, FileBlocks, SettledMeta, HasRoom, Stranded, Name, FileText,
           Exchanged, Mountable;
      ghost var total, e, text := alloc.total, NewEntry(path, start, count), FileText(SettledMeta(m, |data|), data);
      SoundParts(a.disk, a.storage, a.tree, total, a.list);
      FoundSpace(a.list, total, start, count);
      StagedNew(a, disk, storage, alloc.List(), total, path, p, e, text);
      outcome := Lost;
      if |d.entries| >= MAX_ENTRIES {
        FullHasNoRoom(d);
        return;
      }
      NewEntryOk(a.disk, tree, total, p, e, path, a.list);
      ghost var mid := disk;
      var ok := WriteDesc(p, Extended(d, NewEntry(path, start, count)));
      if !ok { return; }
      RunThenFolder(a.disk, mid, disk, p, e, text);
      DescribedKept(mid, disk, tree.root, total);
      ReportedKept(mid, disk, storage, total, alloc.List());
      StillThere(mid, disk, e, text, SettledMeta(m, |data|), data);
      ExchangedNew(a.list, alloc.List(), e);
      AddFileSound(a.disk, a.storage, a.list, disk, storage, alloc.List(), tree, total, p, e);
      tree := AddFile(tree, p, e);
      outcome := Done;
    }

    /** The entry of a file that was just written over is changed in its folder, if the text still fits. */
    method EnterChanged(path: string, p: nat, k: nat, d: Folder, e: Entry, ghost a: Moment, ghost m: FileMeta, ghost data: string)
      returns (outcome: Outcome)
      requires alloc.Valid() && SoundAt(a, alloc.total) && tree == a.tree && Found(tree, path, p, k, d)
      requires k < |d.entries| && !d.entries[k].isDir && e == d.entries[k].(start := e.start, count := FileBlocks(m, |data|))
      requires Staged(a, disk, storage, alloc.List(), alloc.total, d.entries[k], e, FileText(SettledMeta(m, |data|), data))
      requires IsFile(disk, e.start, e.count, SettledMeta(m, |data|), data)
      modifies this`disk, this`tree
      ensures outcome != Lost ==> Valid()
      ensures Rewritten(a, Now(), alloc.total, path, m, data, outcome, e)
    {
      hide WellFormed, Covers, Holds, Present, Tracks, Described, Reported, Recounted, Target, FilesKept, FolderOk, FolderFits, Good, KeptBut,
           RunFree, Spelled, IsFile, RunReadable, RunOnly, RunHolds, FileBlocks, SettledMeta, Fits, Lands, FileText, Exchanged, Mountable;
      ghost var total, o, text := alloc.total, d.entries[k], FileText(SettledMeta(m, |data|), data);
      SoundParts(a.disk, a.storage, a.tree, total, a.list);
      assert Slot(tree, p, k) && EntryAt(tree, p, k) == o;
      LandsFits(a.list, total, o, e);
      ChangedEntryOk(a.disk, tree, total, a.list, p, k, e);
      StagedOld(a, disk, storage, alloc.List(), total, p, k, e, text);
      ghost var mid := disk;
      var ok := WriteDesc(p, Changed(d, k, e));
      if !ok { return Lost; }
      NoFolderInOld(tree, total, a.list, p, k, e, p);
      RunThenFolder(a.disk, mid, disk, p, e, text);
      DescribedKept(mid, disk, tree.root, total);
      ReportedKept(mid, disk, storage, total, alloc.List());
      StillThere(mid, disk, e, text, SettledMeta(m, |data|), data);
      assert forall x :: Covers(alloc.List(), x) <==> (Covers(a.list, x) && !Has(o, x)) || Has(e, x) by { ExchangedOld(a.list, alloc.List(), o, e); }
      SetFileSound(a.disk, a.storage, a.list, disk, storage, alloc.List(), tree, total, p, k, e);
      tree := SetFile(tree, p, k, e);
      outcome := Done;
    }
  
    /** minimafs_create_file. */
    method Create(path: string, filetype: string, fileformat: string, now: string) returns (outcome: Outcome)
      requires Valid() && FileArgs(path, filetype, fileformat, now)
      modifies this, alloc, alloc.ext
      ensures alloc.Valid() && alloc.total == old(alloc.total) && (alloc.ext == old(alloc.ext) || fresh(alloc.ext))
      ensures outcome != Lost ==> Valid()
      ensures storage == old(storage) || Recounted(old(storage), storage, now)
      ensures CreateEffect(old(Now()), Now(), alloc.total, path, filetype, fileformat, now, outcome)
    {
      hide WellFormed, Covers, Holds, Present, Tracks, Described, Reported, Recounted, Target, FilesKept, FolderOk, FolderFits, Good, PathOk, FileArgs,
           RunFree, Spelled, MetaOk, IsFile, NoSpace, FileBlocks, FileMade, FileLost, Staged, NewMeta, HasRoom, Name, FileText, SettledMeta;
      SoundParts(disk, storage, tree, alloc.total, alloc.List());
      var found := LookUp(path);
      if found == None { return Refused; }
      var (p, k, d) := found.value;
      if k < |d.entries| && !d.entries[k].isDir { return Refused; }
      if |d.entries| >= MAX_ENTRIES { return Refused; }
      ghost var a := Now();
      NewMetaOk(path, filetype, fileformat, now, false);
      ArgsOk(path, filetype, fileformat, now);
      var m := NewMeta(path, filetype, fileformat, now, false);
      var nothing: string := [];
      assert nothing + nothing == nothing;
      var start, count := WriteToDisk(m, NOTHING, nothing, nothing, now);
      if start == NO_BLOCK { return Refused; }
      StagedEntry(a, disk, storage, alloc.List(), alloc.total, path, start, count, FileText(SettledMeta(m, 0), nothing));
      outcome := EnterNew(path, p, k, d, start, count, a, m, nothing);
    }

    /** minimafs_write_file_segments. */
    method WriteFile(path: string, seg1: string, seg2: string, filetype: string, fileformat: string, now: string)
      returns (outcome: Outcome)
      requires Valid() && FileArgs(path, filetype, fileformat, now) && SizeOk(|seg1| + |seg2|)
      modifies this, alloc, alloc.ext
      ensures alloc.Valid() && alloc.total == old(alloc.total) && (alloc.ext == old(alloc.ext) || fresh(alloc.ext))
      ensures outcome != Lost ==> Valid()
      ensures storage == old(storage) || Recounted(old(storage), storage, now)
      ensures WriteEffect(old(Now()), Now(), alloc.total, path, filetype, fileformat, now, seg1 + seg2, outcome)
    {
      hide WellFormed, Covers, Holds, Present, Tracks, Described, Reported, Recounted, Target, FilesKept, FolderOk, FolderFits, Good, PathOk, FileArgs,
           RunFree, Spelled, MetaOk, IsFile, NoSpace, FileBlocks, FileMade, FileLost, Staged, NewMeta, HasRoom, Rewritten, InUse,
           Name, FileText, SettledMeta;
      SoundParts(disk, storage, tree, alloc.total, alloc.List());
      var found := LookUp(path);
      if found == None { return Refused; }
      var (p, k, d) := found.value;
      if k < |d.entries| && d.entries[k].isDir { return Refused; }
      ghost var a := Now();
      var o := if k < |d.entries| then d.entries[k] else NOTHING;
      assert k < |d.entries| ==> Slot(tree, p, k) && EntryAt(tree, p, k) == o;
      OldRun(tree, alloc.total, alloc.List(), p, k, o);
      NewMetaOk(path, filetype, fileformat, now, o.hidden);
      ArgsOk(path, filetype, fileformat, now);
      var m := NewMeta(path, filetype, fileformat, now, o.hidden);
      var start, count := WriteToDisk(m, o, seg1, seg2, now);
      if start == NO_BLOCK { return Refused; }
      if k == |d.entries| {
        StagedEntry(a, disk, storage, alloc.List(), alloc.total, path, start, count, FileText(SettledMeta(m, |seg1 + seg2|), seg1 + seg2));
        outcome := EnterNew(path, p, k, d, start, count, a, m, seg1 + seg2);
      } else {
        outcome := EnterChanged(path, p, k, d, o.(start := start, count := count), a, m, seg1 + seg2);
      }
    }
  
    /** The part of minimafs_append_file that copies: into a fresh run, with the old one still in place. */
    method CopyAside(o: Entry, data: string, now: string) returns (plan: Plan, start: nat, ghost copied: string)
      requires alloc.Valid() && o.count > 0 && o.start in disk && Layout.Readable(disk, o.start, o.count)
      requires InUse(alloc.List(), o.start, o.count)
      requires var text := CString(disk[o.start]); var p := Planned(text, o.count, |data|, now);
               Recognised(text) && p.count > 0 && !NoSpace(alloc.List(), alloc.total, p.count) ==>
                 Layout.Readable(disk, o.start, BlockCount(p.offset + PlanReach(p)))
      modifies this`disk, alloc, alloc.ext
      ensures alloc.Valid() && alloc.total == old(alloc.total) && (alloc.ext == old(alloc.ext) || fresh(alloc.ext))
      ensures var text := CString(old(disk)[o.start]);
              var p := Planned(text, o.count, |data|, now);
              if !Recognised(text) || p.count == 0 || NoSpace(old(alloc.List()), alloc.total, p.count) then
                start == NO_BLOCK && Now() == old(Now())
              else && start != NO_BLOCK && plan == p && FirstFree(old(alloc.List()), alloc.total, start, p.count)
                   && IsUnion(alloc.List(), old(alloc.List()), start, start + p.count)
                   && Written(disk, old(disk), start, p.count, plan.header + copied + data + FOOTER)
                   && Copied(old(disk), disk, o, o.(start := start, count := p.count), plan, data, copied)
    {
      hide CString, Recognised, Planned, Written, RunFree, Covers, InUse, IsUnion, NoSpace, Layout.Readable, RunHolds, Bytes, Copied, Beside, PlanReach;
      var planned := PlanAppend(disk[o.start], o.count, |data|, now);
      plan, start, copied := Plan(ZERO_META, [], 0, 0, 0), NO_BLOCK, [];
      if planned == None { return; }
      plan := planned.value;
      ghost var list0, before := alloc.List(), disk;
      start := alloc.AllocRun(plan.count);
      if start == NO_BLOCK {
        if plan.count > 0 { FullList(list0, alloc.total, plan.count); }
        return;
      }
      FoundSpace(list0, alloc.total, start, plan.count);
      var readCount := BlockCount(plan.offset + PlanReach(plan));
      BlocksOf(plan.offset + PlanReach(plan));
      PlanCount(CString(disk[o.start]), o.count, data, now);
      ReachOf(plan);
      disk, copied := CopyAppend(disk, o.start, readCount, plan.offset, plan.oldLen, plan.header, data, start, plan.count);
      CopiedAside(before, disk, list0, alloc.total, o, o.(start := start, count := plan.count), plan, data, copied);
    }

    /** minimafs_append_file. */
    method AppendTo(path: string, data: string, now: string) returns (outcome: Outcome)
      requires Valid() && Date(now) && ReadsSucceed(Now(), alloc.total, path, data, now)
      modifies this, alloc, alloc.ext
      ensures alloc.Valid() && alloc.total == old(alloc.total) && (alloc.ext == old(alloc.ext) || fresh(alloc.ext))
      ensures outcome != Lost ==> Valid()
      ensures storage == old(storage) || Recounted(old(storage), storage, now)
      ensures AppendEffect(old(Now()), Now(), alloc.total, path, data, now, outcome)
    {
      hide WellFormed, Covers, Holds, Present, Tracks, Described, Reported, Recounted, Target, FilesKept, FolderOk, FolderFits, Good, RunFree, Spelled,
           NoSpace, InUse, Appended, Planned, Recognised, Layout.Readable, Written, Copied, IsUnion, CString, FirstFree;
      if |data| == 0 { return Refused; }
      SoundParts(disk, storage, tree, alloc.total, alloc.List());
      var found := LookUp(path);
      if found == None { return Refused; }
      var (p, k, d) := found.value;
      if k == |d.entries| || d.entries[k].isDir { return Refused; }
      ghost var a := Now();
      var o := d.entries[k];
      assert Slot(tree, p, k) && EntryAt(tree, p, k) == o;
      OldRun(tree, alloc.total, alloc.List(), p, k, o);
      SlotReadable(disk, tree, alloc.total, p, k);
      var plan, start, copied := CopyAside(o, data, now);
      if start == NO_BLOCK { return Refused; }
      var e := o.(start := start, count := plan.count);
      outcome := EnterAppended(path, p, k, d, e, now, a, plan, data, copied);
    }

    /** The old run is freed and the entry changed, if the folder's text still fits. */
    method EnterAppended(path: string, p: nat, k: nat, d: Folder, e: Entry, now: string, ghost a: Moment,
                         ghost plan: Plan, ghost data: string, ghost copied: string)
      returns (outcome: Outcome)
      requires alloc.Valid() && SoundAt(a, alloc.total) && tree == a.tree && storage == a.storage && Found(tree, path, p, k, d) && Date(now)
      requires k < |d.entries| && !d.entries[k].isDir && e == d.entries[k].(start := e.start, count := PlanAt(a, path, data, now).count) && e.count > 0
      requires FirstFree(a.list, alloc.total, e.start, e.count) && IsUnion(alloc.List(), a.list, e.start, e.start + e.count)
      requires plan == PlanAt(a, path, data, now) && Written(disk, a.disk, e.start, e.count, plan.header + copied + data + FOOTER)
      requires Copied(a.disk, disk, d.entries[k], e, plan, data, copied)
      modifies this, alloc, alloc.ext
      ensures alloc.Valid() && alloc.total == old(alloc.total) && (alloc.ext == old(alloc.ext) || fresh(alloc.ext))
      ensures outcome != Lost ==> Valid()
      ensures storage == a.storage || Recounted(a.storage, storage, now)
      ensures Appended(a, Now(), alloc.total, path, data, now, outcome, e)
    {
      hide WellFormed, Covers, Holds, Present, Tracks, Described, Reported, Recounted, Target, FilesKept, FolderOk, FolderFits, Good, RunFree, Spelled, Fits,
           NoSpace, InUse, Planned, Written, IsUnion, IsDifference, Exchanged, FirstFree, Mountable, RunOnly, RunReadable, RunHolds,
           KeptBut, PlanAt, Copied;
      ghost var total, o, text := alloc.total, d.entries[k], plan.header + copied + data + FOOTER;
      SoundParts(a.disk, a.storage, a.tree, total, a.list);
      assert Slot(tree, p, k) && EntryAt(tree, p, k) == o;
      OldRun(tree, total, a.list, p, k, o);
      FoundSpace(a.list, total, e.start, e.count);
      FreshBeside(a.list, total, o, e);
      ChangedEntryOk(a.disk, tree, total, a.list, p, k, e);
      ghost var mid, midList := disk, alloc.List();
      alloc.FreeRun(d.entries[k].start, d.entries[k].count);
      Moved(a.list, midList, alloc.List(), total, o, e);
      AppendStranded(a, disk, storage, alloc.List(), total, p, k, e, text);
      var ok := WriteDesc(p, Changed(d, k, e));
      if !ok { return Lost; }
      ghost var last := disk;
      Refresh(now);
      NoFolderInOld(tree, total, a.list, p, k, e, p);
      FolderThenZero(a.disk, mid, last, disk, p, e, text);
      CopiedStill(a.disk, mid, disk, o, e, plan, data, copied);
      assert forall x :: Covers(alloc.List(), x) <==> (Covers(a.list, x) && !Has(o, x)) || Has(e, x) by { ExchangedOld(a.list, alloc.List(), o, e); }
      SetFileSound(a.disk, a.storage, a.list, disk, storage, alloc.List(), tree, total, p, k, e);
      tree := SetFile(tree, p, k, e);
      outcome := Done;
    }

    // ---- mounting ----

    /** minimafs_calc_file_block_count. */
    method CountBlocks(start: nat) returns (blocks: nat)
    {
      if start !in disk { return 1; }
      var parsed := ParseFileHeader(CString(disk[start]));
      var meta := Or(parsed, ZERO_META);
      blocks := BlockCount(if meta.fileLength == 0 then BLOCK_SIZE else meta.fileLength);
    }

    method BlocksToMark(e: Entry) returns (blocks: nat)
      ensures e.count > 0 ==> blocks == e.count
    {
      blocks := e.count;
      if blocks == 0 {
        if e.isDir { blocks := 1; } else { blocks := CountBlocks(e.start); }
      }
    }

    /** The first loop of minimafs_scan_directory: marks the runs of a folder's entries. */
    method MarkEntries(desc: Folder, ghost block: nat) returns (subdirs: seq<nat>)
      requires alloc.Valid() && WellFormed(tree, alloc.total) && block in tree.folders && desc == tree.folders[block]
      modifies alloc, alloc.ext
      ensures alloc.Valid() && alloc.total == old(alloc.total) && (alloc.ext == old(alloc.ext) || fresh(alloc.ext))
      ensures Ranked(tree) && Marked(alloc.List(), old(alloc.List()), tree, block, [])
      ensures forall s :: s in subdirs <==> Subfolder(tree, block, s)
    {
      hide Covers, WellFormed, Ranked;
      WellRanked(tree, alloc.total);
      subdirs := [];
      for k := 0 to |desc.entries|
        invariant alloc.Valid() && alloc.total == old(alloc.total) && (alloc.ext == old(alloc.ext) || fresh(alloc.ext))
        invariant forall x :: Covers(alloc.List(), x) <==>
                    Covers(old(alloc.List()), x) || exists i :: 0 <= i < k && Slot(tree, block, i) && Has(EntryAt(tree, block, i), x)
        invariant forall s :: s in subdirs <==>
                    exists i :: 0 <= i < k && Slot(tree, block, i) && EntryAt(tree, block, i).isDir && EntryAt(tree, block, i).start == s
      {
        var e := desc.entries[k];
        assert Slot(tree, block, k) && EntryAt(tree, block, k) == e;
        SlotInside(tree, alloc.total, block, k);
        var blocks := BlocksToMark(e);
        alloc.MarkUsed(e.start, blocks);
        if e.isDir { subdirs := subdirs + [e.start]; }
      }
    }

    /** minimafs_scan_directory: marks every run named below the folder, and nothing else. */
    method Scan(block: nat)
      requires alloc.Valid() && WellFormed(tree, alloc.total) && Ranked(tree) && Holds(disk, tree) && block in tree.folders
      modifies alloc, alloc.ext
      ensures alloc.Valid() && alloc.total == old(alloc.total) && (alloc.ext == old(alloc.ext) || fresh(alloc.ext))
      ensures Scanned(alloc.List(), old(alloc.List()), tree, block)
      decreases tree.bound - tree.rank[block]
    {
      hide Covers, WellFormed, Here, Under, Slot, UnderAny, Scanned, Marked, Ranked, Subfolder, Holds, ParseFolder, CString;
      HeldFolder(disk, tree, block);
      var desc := ReadFolder(CString(disk[block]));
      var subdirs := MarkEntries(desc, block);
      ghost var before := old(alloc.List());
      for k := 0 to |subdirs|
        invariant alloc.Valid() && alloc.total == old(alloc.total) && (alloc.ext == old(alloc.ext) || fresh(alloc.ext))
        invariant Marked(alloc.List(), before, tree, block, subdirs[..k])
      {
        assert subdirs[k] in subdirs && Subfolder(tree, block, subdirs[k]);
        SubfolderBelow(tree, block, subdirs[k]);
        ghost var mid := alloc.List();
        Scan(subdirs[k]);
        MarkedMore(alloc.List(), mid, before, tree, block, subdirs, k);
      }
      MarkedAll(alloc.List(), before, tree, block, subdirs);
    }
  }

  lemma SubfolderBelow(t: Tree, f: nat, s: nat)
    requires Ranked(t) && f in t.folders && Subfolder(t, f, s)
    ensures s in t.folders && t.rank[f] < t.rank[s] <= t.bound
  {
  }

  lemma ReachOf(plan: Plan)
    ensures PlanReach(plan) == Reach(plan.header, plan.oldLen, plan.count)
  {
  }

  lemma CopiedStill(before: Disk, mid: Disk, after: Disk, o: Entry, e: Entry, plan: Plan, data: string, copied: string)
    requires Copied(before, mid, o, e, plan, data, copied)
    requires RunHolds(after, e.start, e.count, plan.header + copied + data + FOOTER)
    ensures Copied(before, after, o, e, plan, data, copied)
  {
    hide RunHolds, Layout.Readable;
  }

  /** The data was appended in another run and the old one freed, and nothing else happened. */
  lemma AppendStranded(a: Moment, disk: Disk, storage: StorageDesc, list: seq<Extent>, total: nat, p: nat, k: nat, e: Entry, text: string)
    requires SoundAt(a, total) && Slot(a.tree, p, k) && !EntryAt(a.tree, p, k).isDir
    requires RunFree(a.list, total, e.start, e.count) && e.start >= 1 && e.count > 0 && Fits(a.list, total, EntryAt(a.tree, p, k), e)
    requires Written(disk, a.disk, e.start, e.count, text) && Exchanged(a.list, list, EntryAt(a.tree, p, k), e)
    ensures Stranded(a, Moment(disk, storage, a.tree, list), total, EntryAt(a.tree, p, k), e)
  {
    hide WellFormed, Covers, Holds, Present, Tracks, Described, Reported, Recounted, RunFree, RunReadable, RunOnly, RunHolds, Exchanged, Mountable, Written, Fits;
    RunWritten(a.disk, disk, e, text);
    assert 0 in a.disk && |a.disk[0]| == BLOCK_SIZE by { ZeroPresent(a.disk, a.tree); }
    DescribedKept(a.disk, disk, a.tree.root, total);
    forall f | f in a.tree.folders ensures f != 0 && !Has(e, f) {
      NoFolderInOld(a.tree, total, a.list, p, k, e, f);
    }
    StillMountable(a.disk, disk, a.tree, total, e);
    NewNotTracked(a.list, list, a.tree, total, EntryAt(a.tree, p, k), e);
  }

  lemma ZeroPresent(disk: Disk, t: Tree)
    requires Present(disk, t)
    ensures 0 in disk && |disk[0]| == BLOCK_SIZE
  {
    assert Owned(t, 0);
  }

  /** The run was written for no entry yet; its name makes no difference. */
  lemma StagedEntry(a: Moment, disk: Disk, storage: StorageDesc, list: seq<Extent>, total: nat, path: string, start: nat, count: nat, text: string)
    requires Staged(a, disk, storage, list, total, NOTHING, NOTHING.(start := start, count := count), text)
    ensures Staged(a, disk, storage, list, total, NOTHING, NewEntry(path, start, count), text)
  {
    hide Covers, Described, Reported, RunFree, RunHolds;
    var e, f := NOTHING.(start := start, count := count), NewEntry(path, start, count);
    assert forall x :: Has(e, x) <==> Has(f, x);
    hide Has;
  }

  /** A file was written and nothing else: the disk still spells out the tree. */
  lemma StagedNew(a: Moment, disk: Disk, storage: StorageDesc, list: seq<Extent>, total: nat, path: string, p: nat, e: Entry, text: string)
    requires SoundAt(a, total) && Staged(a, disk, storage, list, total, NOTHING, e, text) && p in a.tree.folders
    ensures Stranded(a, Moment(disk, storage, a.tree, list), total, NOTHING, e) && !Has(e, p)
    ensures FirstFree(a.list, total, e.start, e.count)
  {
    hide WellFormed, Covers, Holds, Present, Tracks, Described, Reported, Recounted, RunFree, RunReadable, RunOnly, RunHolds, Exchanged, Mountable;
    FoundSpace(a.list, total, e.start, e.count);
    forall f | f in a.tree.folders ensures f != 0 && !Has(e, f) {
      NoFolderInNew(a.tree, total, a.list, e, f);
    }
    StillMountable(a.disk, disk, a.tree, total, e);
    NewNotTracked(a.list, list, a.tree, total, NOTHING, e);
  }

  lemma StagedOld(a: Moment, disk: Disk, storage: StorageDesc, list: seq<Extent>, total: nat, p: nat, k: nat, e: Entry, text: string)
    requires SoundAt(a, total) && Slot(a.tree, p, k) && !EntryAt(a.tree, p, k).isDir
    requires e == EntryAt(a.tree, p, k).(start := e.start, count := e.count)
    requires Staged(a, disk, storage, list, total, EntryAt(a.tree, p, k), e, text)
    ensures Mountable(disk, a.tree, total)
    ensures !FolderFits(Changed(a.tree.folders[p], k, e)) ==> !Tracks(list, a.tree)
  {
    hide WellFormed, Covers, Holds, Present, Tracks, Described, Reported, Recounted, RunReadable, RunOnly, RunHolds, Lands, Exchanged, Mountable, FolderFits, Fits;
    LandsFits(a.list, total, EntryAt(a.tree, p, k), e);
    forall f | f in a.tree.folders ensures f != 0 && !Has(e, f) {
      NoFolderInOld(a.tree, total, a.list, p, k, e, f);
    }
    StillMountable(a.disk, disk, a.tree, total, e);
    if !FolderFits(Changed(a.tree.folders[p], k, e)) { ChangedNotTracked(a.disk, a.list, list, a.tree, total, p, k, e); }
  }

  lemma ExchangedNew(before: seq<Extent>, after: seq<Extent>, e: Entry)
    requires Exchanged(before, after, NOTHING, e)
    ensures forall x :: Covers(after, x) <==> Covers(before, x) || Has(e, x)
  {
    hide Covers;
  }

  lemma ExchangedOld(before: seq<Extent>, after: seq<Extent>, o: Entry, e: Entry)
    requires Exchanged(before, after, o, e)
    ensures forall x :: Covers(after, x) <==> (Covers(before, x) && !Has(o, x)) || Has(e, x)
  {
  }

  /** Two disks whose run holds the same text hold the same file. */
  lemma StillThere(mid: Disk, after: Disk, e: Entry, text: string, meta: FileMeta, data: string)
    requires RunHolds(mid, e.start, e.count, text) && RunHolds(after, e.start, e.count, text)
    requires IsFile(mid, e.start, e.count, meta, data)
    ensures IsFile(after, e.start, e.count, meta, data)
  {
    hide IsFile, BlockOf;
    StillFile(mid, after, e.start, e.count, meta, data);
  }
}
