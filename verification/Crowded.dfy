/** A folder that just fits into its block. Creating a file in it, or writing a file in it that grows, takes blocks and
    then fails. */
module Crowded {
  import opened Options
  import opened Text
  import opened Descriptors
  import opened FileHeader
  import opened FileLength
  import opened FolderDesc
  import opened Layout
  import opened Image
  import opened Files
  import opened Extents
  import opened Directory
  import opened Paths
  import opened Volume
  import opened Effects
  import opened Moves
  import opened Witnesses
  import opened MinimaFS
  import opened Mounting

  const BLOCKS := 2000

  // ---- the folder ----

  /** One file of nine blocks, and after it files of one block with names of 62 bytes. */
  function CrowdEntry(i: nat): Entry {
    if i == 0 then Entry(Letters(11), false, 2, 9, false) else Entry(Letters(62), false, 10 + i, 1, false)
  }

  function Crowd(n: nat): (s: seq<Entry>)
    ensures |s| == n && forall i :: 0 <= i < n ==> s[i] == CrowdEntry(i)
  {
    seq(n, i requires 0 <= i < n => CrowdEntry(i))
  }

  function CrowdedFolder(): Folder { Folder("/", Crowd(41)) }

  ghost function CrowdedTree(): Tree { Tree(1, map[1 := CrowdedFolder()], map[1 := 0], 0) }

  lemma CrowdLine(i: nat)
    requires i <= 40
    ensures |EntryLine(CrowdEntry(i))| == if i == 0 then 48 else 100
  {
    Powers();
    WidthIs(2, 1);
    WidthIs(9, 1);
    WidthIs(1, 1);
    if i > 0 { WidthIs(10 + i, 2); }
    hide Decimal, Letters;
  }

  lemma {:induction false} CrowdLength(n: nat)
    requires n <= 41
    ensures |EntryLines(Crowd(n))| == if n == 0 then 0 else 100 * n - 52
  {
    hide EntryLine, EntryLines, CrowdEntry, Crowd;
    if n > 0 {
      CrowdLength(n - 1);
      CrowdLine(n - 1);
      assert Crowd(n) == Crowd(n - 1) + [CrowdEntry(n - 1)];
      EntryLinesJoin(Crowd(n - 1), [CrowdEntry(n - 1)]);
      OneEntry(CrowdEntry(n - 1));
    } else {
      assert Crowd(0) == [];
      NoEntry();
    }
  }

  lemma OneEntry(e: Entry)
    ensures EntryLines([e]) == EntryLine(e)
  {
    hide EntryLine;
    assert EntryLines([e][1..]) == [];
  }

  lemma NoEntry()
    ensures EntryLines([]) == []
  {
  }

  lemma HeadLengths(n: nat)
    requires 10 <= n <= 99
    ensures |HeadText("/", n)| == 20
  {
    Powers();
    WidthIs(n, 2);
    hide Decimal;
  }

  lemma CrowdedOk()
    ensures FolderOk(CrowdedFolder())
  {
    hide Letters, Crowd;
    forall i | 0 <= i < 41 ensures EntryOk(Crowd(41)[i]) {
      assert Crowd(41)[i] == CrowdEntry(i);
    }
  }

  /** The folder is within the limits of the writer, is not full, and has no room for another entry. */
  lemma CrowdedFits()
    ensures var d := CrowdedFolder(); FolderFits(d) && |d.entries| < MAX_ENTRIES && !HasRoom(d)
  {
    hide EntryLines, HeadText, Crowd;
    var d := CrowdedFolder();
    HeadLengths(41);
    HeadLengths(42);
    CrowdLength(41);
    forall i | 0 <= i < 41 ensures |FolderHead(d) + EntryLines(d.entries[..i])| <= BLOCK_SIZE - 128 {
      CrowdLength(i);
      assert Crowd(41)[..i] == Crowd(i);
    }
  }

  /** With a longer first line it is not. */
  lemma LongerDoesNotFit(e: Entry)
    requires e == CrowdEntry(0).(start := 51, count := 10)
    ensures !FolderFits(Changed(CrowdedFolder(), 0, e))
  {
    LongerLine(e);
    CrowdLine(0);
    hide EntryLine, HeadText, Crowd, CrowdEntry;
    var d := Changed(CrowdedFolder(), 0, e);
    HeadLengths(41);
    CrowdLength(40);
    var tail := Crowd(40)[1..];
    assert d.entries[..40] == [e] + tail && ([e] + tail)[1..] == tail;
    assert EntryLines([e] + tail) == EntryLine(e) + EntryLines(tail);
    assert EntryLines(Crowd(40)) == EntryLine(CrowdEntry(0)) + EntryLines(tail);
    assert |FolderHead(d) + EntryLines(d.entries[..40])| > BLOCK_SIZE - 128;
  }

  lemma LongerLine(e: Entry)
    requires e == CrowdEntry(0).(start := 51, count := 10)
    ensures |EntryLine(e)| == 50
  {
    Powers();
    WidthIs(51, 2);
    WidthIs(10, 2);
    hide Decimal, Letters;
  }

  // ---- the volume ----

  lemma CrowdedWellFormed()
    ensures WellFormed(CrowdedTree(), BLOCKS)
  {
    CrowdedOk();
    hide FolderOk, Letters, Crowd;
    var t := CrowdedTree();
    forall f, i | Slot(t, f, i) ensures Inside(EntryAt(t, f, i), t.root, BLOCKS) && Below(t, f, EntryAt(t, f, i)) {
      assert f == 1 && EntryAt(t, f, i) == CrowdEntry(i);
    }
    forall f, i, g, j | Slot(t, f, i) && Slot(t, g, j) && (f != g || i != j) ensures Disjoint(EntryAt(t, f, i), EntryAt(t, g, j)) {
      assert f == 1 && g == 1 && EntryAt(t, f, i) == CrowdEntry(i) && EntryAt(t, g, j) == CrowdEntry(j);
    }
  }

  lemma CrowdedOwned(x: int)
    ensures Owned(CrowdedTree(), x) <==> 0 <= x < 51
  {
    hide Letters, Crowd;
    var t := CrowdedTree();
    if 2 <= x < 51 {
      var i := if x < 11 then 0 else x - 10;
      assert Slot(t, 1, i) && EntryAt(t, 1, i) == CrowdEntry(i) && Has(EntryAt(t, 1, i), x);
    }
    if InSlot(t, x) {
      var f, i :| Slot(t, f, i) && Has(EntryAt(t, f, i), x);
      assert f == 1 && EntryAt(t, f, i) == CrowdEntry(i);
    }
  }

  function CrowdedStorage(): StorageDesc {
    StorageDesc(MAGIC, 0, "", "", false, BLOCKS * BLOCK_SIZE, 51 * BLOCK_SIZE, (BLOCKS - 51) * BLOCK_SIZE,
                BLOCKS, 51, BLOCKS - 51, 1, "", "", "")
  }

  function CrowdedBlock(b: nat): (s: string)
    ensures |s| == BLOCK_SIZE
  {
    if b == 0 then BlockOf(PrintStorage(CrowdedStorage()), 0)
    else if b == 1 then BlockOf(FolderText(CrowdedFolder()), 0)
    else BlockOf([], 0)
  }

  function CrowdedDisk(): Disk { map b: nat | b < 51 :: CrowdedBlock(b) }

  lemma CrowdedMountable()
    ensures Mountable(CrowdedDisk(), CrowdedTree(), BLOCKS)
  {
    hide CrowdedFolder, WellFormed, ParseStorage, CString, Owned, CrowdedBlock, Spelled, DescriptorOk;
    CrowdedWellFormed();
    CrowdedDescribed();
    CrowdedSpelled();
    forall x | Owned(CrowdedTree(), x) ensures x in CrowdedDisk() && |CrowdedDisk()[x]| == BLOCK_SIZE {
      CrowdedOwned(x);
    }
  }

  lemma CrowdedSpelled()
    ensures Spelled(CrowdedBlock(1), CrowdedFolder())
  {
    CrowdedPath();
    CrowdedOk();
    CrowdedFits();
    CrowdedText();
    hide CrowdedFolder, FolderOk, FolderFits, HasRoom, ParseFolder, CString, FolderText, BlockOf;
    FolderReads(CrowdedFolder());
  }

  lemma CrowdedDescribed()
    ensures var s := ParseStorage(CString(CrowdedBlock(0))); s.Some? && DescriptorOk(s.value, 1, BLOCKS)
  {
    CrowdedStorageOk();
    hide CrowdedStorage, StorageOk, ParseStorage, PrintStorage, CString, BlockOf;
    StorageReads(CrowdedStorage());
  }

  lemma CrowdedText()
    ensures |FolderText(CrowdedFolder())| < BLOCK_SIZE
  {
    Powers();
    WidthIs(41, 2);
    CrowdLength(41);
    hide Decimal, EntryLines, Crowd;
  }

  lemma CrowdedPath()
    ensures CrowdedFolder().path == "/"
  {
  }

  lemma CrowdedStorageOk()
    ensures var s := CrowdedStorage();
            StorageOk(s) && s.magic == MAGIC && s.rootBlock == 1 && s.totalBlocks == BLOCKS && s.totalSize == BLOCKS * BLOCK_SIZE
  {
  }

  // ---- creating a file ----

  lemma CrowdedTarget(name: string, k: nat)
    requires (forall i :: 0 <= i < |name| ==> name[i] != '/') && k <= 41
    requires (k < 41 ==> CrowdEntry(k).name == name) && forall i :: 0 <= i < k ==> CrowdEntry(i).name != name
    ensures Target(CrowdedTree(), name) == Some((1, k))
  {
    hide Letters, CrowdEntry, Crowd, Target, FirstNamed;
    CrowdedWellFormed();
    RootTarget(CrowdedTree(), BLOCKS, name);
    NamedIs(Crowd(41), name, k);
  }

  /** A name by itself is looked up in the root. */
  lemma RootTarget(t: Tree, total: nat, name: string)
    requires WellFormed(t, total) && forall i :: 0 <= i < |name| ==> name[i] != '/'
    ensures t.root in t.folders && Target(t, name) == Some((t.root, FirstNamed(t.folders[t.root].entries, name)))
  {
    hide WellFormed, Lead, FirstNamed, LastSlash, Name, Parent;
    NoSlash(name);
    RootLead(t, total);
  }

  lemma RootLead(t: Tree, total: nat)
    requires WellFormed(t, total)
    ensures t.root in t.folders && Lead(t, []) == Some(t.root)
  {
    hide FoldersOk, SlotsOk, Apart, Ranked;
    WellRanked(t, total);
    NoComponents();
  }

  lemma NoComponents()
    ensures Components([]) == []
  {
  }

  /** The free blocks of a volume with that tree. */
  lemma CrowdedSpace(a: Moment, start: nat, count: nat)
    requires SoundAt(a, BLOCKS) && a.tree == CrowdedTree() && 0 < count <= 100
    ensures FirstFree(a.list, BLOCKS, 51, count) && !NoSpace(a.list, BLOCKS, count)
    ensures FirstFree(a.list, BLOCKS, start, count) ==> start == 51
  {
    hide WellFormed, Holds, Present, Described, DescriptorOk, Covers, Owned, CrowdedTree;
    forall x ensures Covers(a.list, x) <==> 0 <= x < 51 {
      CrowdedOwned(x);
    }
    assert RunFree(a.list, BLOCKS, 51, count);
    forall b | 1 <= b < 51 ensures !RunFree(a.list, BLOCKS, b, count) {
      assert Covers(a.list, b);
    }
  }

  /** Creating a file in the folder is lost. */
  lemma CreateIsLost(a: Moment, b: Moment, filetype: string, fileformat: string, now: string, outcome: Outcome)
    requires SoundAt(a, BLOCKS) && a.tree == CrowdedTree() && FileArgs("b", filetype, fileformat, now)
    requires CreateEffect(a, b, BLOCKS, "b", filetype, fileformat, now, outcome)
    ensures outcome == Lost
  {
    hide SoundAt, MetaOk, FileArgs, NewMeta, Target, NoSpace, HasRoom, FileMade, FileLost, Crowd, CrowdEntry, FileBlocks;
    var m := NewMeta("b", filetype, fileformat, now, false);
    NewMetaOk("b", filetype, fileformat, now, false);
    OtherNames();
    NoSlashIn();
    CrowdedTarget("b", 41);
    CrowdedNoRoom();
    FewBlocks(m);
    CrowdedSpace(a, 51, FileBlocks(m, 0));
  }

  lemma NoSlashIn()
    ensures forall i :: 0 <= i < |"b"| ==> "b"[i] != '/'
  {
  }

  lemma CrowdedNoRoom()
    ensures |CrowdedFolder().entries| == 41 && !HasRoom(CrowdedFolder())
  {
    CrowdedFits();
  }

  lemma FewBlocks(m: FileMeta)
    requires MetaOk(m)
    ensures 0 < FileBlocks(m, 0) <= 2
  {
    hide MetaOk, FileSize;
    SizeBound(m, 0);
    SizeAtLeast(m, 0);
  }

  lemma OtherNames()
    ensures forall i: nat :: CrowdEntry(i).name != "b"
  {
    assert |Letters(11)| == 11 && |Letters(62)| == 62;
    hide Letters;
  }

  // ---- writing over a file ----

  lemma TenBlocks(m: FileMeta)
    requires MetaOk(m)
    ensures FileBlocks(m, 36_864) == 10
  {
    hide MetaOk, FileSize;
    SizeBound(m, 36_864);
    SizeAtLeast(m, 36_864);
  }

  /** Writing ten blocks to the file of nine is lost, and its blocks, which the folder still names, are the first to be
      handed out next. */
  lemma RewriteIsLost(a: Moment, b: Moment, filetype: string, fileformat: string, now: string, data: string, outcome: Outcome)
    requires SoundAt(a, BLOCKS) && a.tree == CrowdedTree() && FileArgs(Letters(11), filetype, fileformat, now) && |data| == 36_864
    requires WriteEffect(a, b, BLOCKS, Letters(11), filetype, fileformat, now, data, outcome)
    ensures outcome == Lost && Slot(b.tree, 1, 0) && EntryAt(b.tree, 1, 0) == CrowdEntry(0) && FirstFree(b.list, BLOCKS, 2, 9)
  {
    hide Letters, CrowdEntry, Crowd, SoundAt, FileArgs, MetaOk, NewMeta, Target, NoSpace, FolderFits, FileMade, FileLost, FileChanged, FileBlocks,
         FirstFree, Stranded, HasRoom;
    FirstEntry();
    CrowdedTarget(Letters(11), 0);
    var m := NewMeta(Letters(11), filetype, fileformat, now, false);
    NewMetaOk(Letters(11), filetype, fileformat, now, false);
    TenBlocks(m);
    CrowdedSpace(a, 51, 10);
    var e :| Rewritten(a, b, BLOCKS, Letters(11), m, data, outcome, e);
    CrowdedSpace(a, e.start, 10);
    LongerDoesNotFit(e);
    FreedFirst(a, b, e);
  }

  lemma FirstEntry()
    ensures CrowdEntry(0) == Entry(Letters(11), false, 2, 9, false)
  {
  }

  lemma FreedFirst(a: Moment, b: Moment, e: Entry)
    requires SoundAt(a, BLOCKS) && a.tree == CrowdedTree() && e.start == 51 && e.count == 10
    requires Stranded(a, b, BLOCKS, CrowdEntry(0), e)
    ensures b.tree == a.tree && FirstFree(b.list, BLOCKS, 2, 9)
  {
    hide WellFormed, Holds, Present, Described, DescriptorOk, Covers, Owned, CrowdedTree, Mountable, Letters;
    forall x ensures Covers(b.list, x) <==> (0 <= x < 2 || 11 <= x < 61) {
      CrowdedOwned(x);
    }
    assert Covers(b.list, 1);
  }

  // ---- both, from the disk on ----

  /** minimafs_mount of that disk, then minimafs_create_file. */
  method LoseCreate(filetype: string, fileformat: string, now: string) returns (d: Drive?, outcome: Outcome)
    requires FileArgs("b", filetype, fileformat, now)
    ensures d != null && outcome == Lost
  {
    hide SoundAt, FileArgs, Mountable, CreateEffect, CrowdedTree, CrowdedDisk;
    CrowdedMountable();
    ArgsDate("b", filetype, fileformat, now);
    d := Mount(CrowdedDisk(), BLOCKS * BLOCK_SIZE, now, CrowdedTree(), BLOCKS);
    ghost var a := d.Now();
    outcome := d.Create("b", filetype, fileformat, now);
    CreateIsLost(a, d.Now(), filetype, fileformat, now, outcome);
  }

  /** minimafs_mount of that disk, then minimafs_write_file_segments: blocks 2 to 10 belong to a file, and are free. */
  method LoseRewrite(filetype: string, fileformat: string, data: string, now: string) returns (d: Drive?, outcome: Outcome)
    requires FileArgs(Letters(11), filetype, fileformat, now) && |data| == 36_864
    ensures d != null && outcome == Lost && d.alloc.Valid()
    ensures Slot(d.tree, 1, 0) && EntryAt(d.tree, 1, 0) == CrowdEntry(0) && FirstFree(d.alloc.List(), BLOCKS, 2, 9)
  {
    hide SoundAt, FileArgs, Mountable, WriteEffect, CrowdedTree, CrowdedDisk, FirstFree, Letters, CrowdEntry;
    CrowdedMountable();
    ArgsDate(Letters(11), filetype, fileformat, now);
    d := Mount(CrowdedDisk(), BLOCKS * BLOCK_SIZE, now, CrowdedTree(), BLOCKS);
    ghost var a := d.Now();
    outcome := d.WriteFile(Letters(11), data, [], filetype, fileformat, now);
    assert data + [] == data;
    RewriteIsLost(a, d.Now(), filetype, fileformat, now, data, outcome);
  }

  lemma ArgsDate(path: string, filetype: string, fileformat: string, now: string)
    requires FileArgs(path, filetype, fileformat, now)
    ensures Date(now)
  {
  }
}
