/** Formatting and mounting a volume. */
module Mounting {
  import opened Options
  import opened Text
  import opened Tags
  import opened Descriptors
  import opened FolderDesc
  import opened Layout
  import opened Image
  import opened Extents
  import opened Directory
  import opened Volume
  import opened Edits
  import opened Effects
  import opened Moves
  import opened MinimaFS

  /** minimafs_mount of a disk that spells out a tree: the rescan marks exactly the blocks of that tree. A device
      smaller than the volume is refused. */
  method Mount(disk: Disk, deviceBytes: nat, now: string, ghost t: Tree, ghost total: nat) returns (d: Drive?)
    requires Mountable(disk, t, total) && Date(now)
    ensures d == null <==> total * BLOCK_SIZE > deviceBytes
    ensures d != null ==> fresh(d) && fresh(d.alloc) && fresh(d.alloc.ext) && d.Valid() && d.tree == t && d.alloc.total == total
    ensures d != null ==> OnlyZero(disk, d.disk)
    ensures d != null ==> 0 in disk && ParseStorage(CString(disk[0])).Some? && Recounted(ParseStorage(CString(disk[0])).value, d.storage, now)
  {
    hide FoldersOk, SlotsOk, Apart, Covers, Holds, Present, ParseStorage, CString, Good, Scanned, Tracks, Reported, Recounted;
    var read := ParseStorage(CString(disk[0]));
    if read == None { return null; }
    var s := read.value;
    if s.magic != MAGIC || s.rootBlock == 0 || s.totalBlocks == 0 { return null; }
    if s.rootBlock >= s.totalBlocks { return null; }
    if s.totalBlocks * BLOCK_SIZE > deviceBytes { return null; }
    d := new Drive(disk, s, t);
    NothingCovered();
    d.alloc.MarkUsed(0, 1);
    d.alloc.MarkUsed(s.rootBlock, 1);
    WellRanked(t, total);
    ghost var mid := d.alloc.List();
    d.Scan(s.rootBlock);
    ScannedTracks(d.alloc.List(), mid, t, total);
    d.Refresh(now);
    ZeroKeeps(disk, d.disk, t, total);
  }

  /** Mounting what a sound drive left on its disk rebuilds the extent list and the free count that it kept. */
  method Remount(live: Drive, deviceBytes: nat, now: string) returns (d: Drive?)
    requires live.Valid() && Date(now)
    ensures d == null <==> live.alloc.total * BLOCK_SIZE > deviceBytes
    ensures d != null ==> fresh(d) && d.Valid() && d.tree == live.tree && d.alloc.total == live.alloc.total
    ensures d != null ==> d.alloc.List() == live.alloc.List() && d.alloc.free == live.alloc.free && OnlyZero(live.disk, d.disk)
    ensures d != null ==> d.storage == live.storage.(lastMounted := now)
  {
    hide WellFormed, Covers, Holds, Present, Described, Good, Tracks;
    d := Mount(live.disk, deviceBytes, now, live.tree, live.alloc.total);
    if d != null {
      SameList(d.alloc.List(), live.alloc.List(), live.tree, live.alloc.total, d.alloc.free, live.alloc.free);
    }
  }

  /** After a loss blocks of a file that the folder still names are free, unless they are in the new run as well. */
  lemma NamedButFree(a: Moment, b: Moment, total: nat, p: nat, k: nat, e: Entry, x: int)
    requires Slot(a.tree, p, k) && Stranded(a, b, total, EntryAt(a.tree, p, k), e) && Has(EntryAt(a.tree, p, k), x) && !Has(e, x)
    ensures Slot(b.tree, p, k) && Has(EntryAt(b.tree, p, k), x) && !Covers(b.list, x)
  {
    hide Covers, Mountable, Tracks;
  }

  /** After a loss the rescan gives the list from before, which is not the one that the drive keeps. */
  lemma Diverged(a: Moment, b: Moment, total: nat, o: Entry, e: Entry, rebuilt: seq<Extent>, free: nat, freeA: nat)
    requires SoundAt(a, total) && Stranded(a, b, total, o, e)
    requires Good(a.list, total, freeA) && Good(rebuilt, total, free) && Tracks(rebuilt, b.tree)
    ensures rebuilt == a.list && free == freeA && rebuilt != b.list
  {
    hide WellFormed, Covers, Holds, Present, Described, Good, Tracks, Exchanged, Mountable;
    SameList(rebuilt, a.list, a.tree, total, free, freeA);
  }

  lemma NothingCovered()
    ensures forall x :: !Covers([], x)
  {
  }

  // ---- formatting ----

  lemma RootText()
    ensures FolderText(Folder("/", [])) == "FOLDER:/\nENTRIES:0\n@END\n"
    ensures |FolderText(Folder("/", []))| == 24
  {
    assert EntryLines([]) == "" && Decimal(0) == "0";
    hide Decimal, EntryLines;
  }

  lemma RootFolderOk()
    ensures FolderOk(Folder("/", [])) && FolderFits(Folder("/", []))
  {
  }

  lemma RootSpelled()
    ensures FolderText(Folder("/", [])) == "FOLDER:/\nENTRIES:0\n@END\n" && |FolderText(Folder("/", []))| == 24
    ensures Spelled(BlockOf(FolderText(Folder("/", [])), 0), Folder("/", [])) && FolderOk(Folder("/", []))
  {
    hide FolderText, FolderOk, FolderFits, ParseFolder, CString, BlockOf;
    RootText();
    RootFolderOk();
    FolderReads(Folder("/", []));
  }

  ghost function NewTree(root: nat): Tree { Tree(root, map[root := Folder("/", [])], map[root := 0], 0) }

  lemma NewTreeOk(root: nat, total: nat)
    requires 1 <= root < total && FolderOk(Folder("/", []))
    ensures WellFormed(NewTree(root), total)
    ensures forall x :: Owned(NewTree(root), x) <==> x == 0 || x == root
  {
  }

  /** The descriptor that format fills in. */
  function NewStorage(size: nat, total: nat, root: nat, number: nat, name: string, now: string): StorageDesc
    requires 2 <= total && 2 * BLOCK_SIZE <= size
  {
    StorageDesc(MAGIC, number, Truncate(name, 64), "", false, size, 2 * BLOCK_SIZE, size - 2 * BLOCK_SIZE,
                total, 2, total - 2, root, "", now, now)
  }

  lemma NewStorageOk(size: nat, total: nat, root: nat, number: nat, name: string, now: string)
    requires 16 <= total <= MAX_BLOCKS && total * BLOCK_SIZE <= size < LONG && 1 <= root < total
    requires number < 256 && Clean(name) && Date(now)
    ensures DescriptorOk(NewStorage(size, total, root, number, name, now), root, total)
  {
    CleanPart(name, 0, |Truncate(name, 64)|);
    assert name[0..|Truncate(name, 64)|] == Truncate(name, 64);
    CleanEmpty();
    hide Clean;
  }

  lemma FirstBlockFree(total: nat)
    requires total >= 2
    ensures RunFree([], total, 1, 1)
  {
  }

  /** minimafs_format: a volume of fewer than 16 blocks is refused; otherwise the root folder is empty and blocks
      0 and 1 are in use. */
  method Format(device: Disk, size: nat, number: nat, name: string, now: string) returns (d: Drive?)
    requires size < LONG && number < 256 && Clean(name) && Date(now)
    ensures d == null <==> size / BLOCK_SIZE < 16
    ensures d != null ==> fresh(d) && fresh(d.alloc) && fresh(d.alloc.ext) && d.Valid() && d.tree == NewTree(1)
    ensures d != null ==> d.alloc.total == (if size / BLOCK_SIZE > MAX_BLOCKS then MAX_BLOCKS else size / BLOCK_SIZE)
    ensures d != null ==> d.alloc.free == d.alloc.total - 2
    ensures d != null ==>
              && d.storage.driveNumber == number && d.storage.driveName == name[..if |name| < 64 then |name| else 63]
              && d.storage.created == d.storage.lastMounted == now && d.storage.volumeLabel == [] && d.storage.password == []
              && !d.storage.passwordProtected
              && d.storage.totalSize == if size / BLOCK_SIZE > MAX_BLOCKS then MAX_BLOCKS * BLOCK_SIZE else size
  {
    hide Covers, ParseStorage, PrintStorage, BlockOf, CString, WellFormed, Spelled, RunFree, Clean, Good, StorageOk, InSlot, Holds, Present, FolderText, FolderOk,
         Sound, DescriptorOk, Described, Tracks, Reported, Sum, Canonical, Within;
    var bytes := if size / BLOCK_SIZE > MAX_BLOCKS then MAX_BLOCKS * BLOCK_SIZE else size;
    var total := bytes / BLOCK_SIZE;
    if total < 16 { return null; }
    ghost var t := NewTree(1);
    d := new Drive(device, NewStorage(bytes, total, 1, number, name, now), t);
    FirstBlockFree(total);
    var root := d.alloc.AllocRun(1);
    if root == 0 || root == NO_BLOCK { return null; }
    assert root == 1;
    d.storage := NewStorage(bytes, total, root, number, name, now);
    NothingCovered();
    d.alloc.MarkUsed(0, 1);
    d.alloc.MarkUsed(root, 1);
    NewStorageOk(bytes, total, root, number, name, now);
    d.disk := d.disk[0 := BlockOf(PrintStorage(d.storage), 0)];
    d.disk := d.disk[root := BlockOf("FOLDER:/\nENTRIES:0\n@END\n", 0)];
    TwoUsed(d.alloc.List(), total, d.alloc.free, root);
    NewSound(device, d.disk, d.storage, total, d.alloc.List(), root);
  }

  lemma NewSound(device: Disk, disk: Disk, s: StorageDesc, total: nat, list: seq<Extent>, root: nat)
    requires root == 1 < total && DescriptorOk(s, root, total)
    requires disk == device[0 := BlockOf(PrintStorage(s), 0)][root := BlockOf("FOLDER:/\nENTRIES:0\n@END\n", 0)]
    requires forall x :: Covers(list, x) <==> x == 0 || x == root
    requires s.usedBlocks == 2 == Sum(list) && s.freeBlocks == total - 2 && s.usedSize == 2 * BLOCK_SIZE && s.freeSize + s.usedSize == s.totalSize
    ensures Sound(disk, s, NewTree(root), total, list) && Reported(disk, s, total, list)
  {
    hide Covers, ParseStorage, PrintStorage, BlockOf, CString, WellFormed, Spelled, Clean, StorageOk, Holds, Present, FolderText, FolderOk, Owned, InSlot;
    StorageReads(s);
    RootSpelled();
    NewTreeOk(root, total);
    NewPresent(disk, NewTree(root), root);
  }

  lemma NewPresent(disk: Disk, t: Tree, root: nat)
    requires t == NewTree(root) && root >= 1 && 0 in disk && |disk[0]| == BLOCK_SIZE
    requires root in disk && Spelled(disk[root], Folder("/", []))
    ensures Present(disk, t) && Holds(disk, t)
  {
    hide Has;
    BlockSize(disk[root], Folder("/", []));
  }

  lemma TwoUsed(list: seq<Extent>, total: nat, free: nat, root: nat)
    requires Good(list, total, free) && root == 1 && forall x :: Covers(list, x) <==> x == 0 || x == root
    ensures free == total - 2 && Sum(list) == 2
  {
    var two := [Extent(0, 2)];
    forall x ensures Covers(two, x) <==> x == 0 || x == root {
      assert two[0].Has(x) <==> x == 0 || x == root;
    }
    hide Covers;
    CanonicalUnique(list, two);
    assert Sum(two) == 2 by { assert two[..0] == [] && Sum(two[..0]) == 0; }
  }
}
