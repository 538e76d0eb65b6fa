/** A mounted volume as values: the blocks on the disk, the storage descriptor, the directory tree that the
    folder blocks spell out, and the list of used extents, with what ties them together. */
module Volume {
  import opened Options
  import opened Text
  import opened Words
  import opened Tags
  import opened Descriptors
  import opened FolderDesc
  import opened Layout
  import opened Image
  import opened Extents
  import opened Directory

  // ---- a descriptor in its block ----

  lemma PaddedReads(text: string)
    requires NoNul(text) && |text| <= BLOCK_SIZE
    ensures CString(BlockOf(text, 0)) == text
  {
    var b := BlockOf(text, 0);
    if |text| < BLOCK_SIZE {
      assert b[|text|] == NUL;
      IndexOfIs(b, NUL, |text|);
    } else {
      assert IndexOf(b, NUL) == |b|;
    }
  }

  lemma DecimalNoNul(n: nat)
    ensures NoNul(Decimal(n))
  {
    DecimalDigits(n);
  }

  lemma JoinNoNul(a: string, b: string)
    requires NoNul(a) && NoNul(b)
    ensures NoNul(a + b)
  {
  }

  lemma EntryNoNul(e: Entry)
    requires EntryOk(e)
    ensures NoNul(EntryLine(e))
  {
    DecimalNoNul(e.start);
    DecimalNoNul(e.count);
    hide Decimal;
  }

  lemma {:induction false} EntriesNoNul(entries: seq<Entry>)
    requires forall i :: 0 <= i < |entries| ==> EntryOk(entries[i])
    ensures NoNul(EntryLines(entries))
  {
    if entries != [] {
      EntryNoNul(entries[0]);
      EntriesNoNul(entries[1..]);
      hide EntryLine;
    }
  }

  lemma FolderNoNul(d: Folder)
    requires FolderOk(d)
    ensures NoNul(FolderText(d))
  {
    DecimalNoNul(|d.entries|);
    EntriesNoNul(d.entries);
    WholeText(d);
    hide Decimal, EntryLines, FolderText;
    JoinNoNul(FolderHead(d), EntryLines(d.entries));
    JoinNoNul(FolderHead(d) + EntryLines(d.entries), "@END\n");
  }

  /** A folder that was written is read back. */
  lemma FolderReads(d: Folder)
    requires FolderOk(d) && |FolderText(d)| < BLOCK_SIZE
    ensures ParseFolder(CString(BlockOf(FolderText(d), 0))) == d
  {
    hide FolderText, ParseFolder, FolderOk, CString, BlockOf;
    FolderNoNul(d);
    PaddedReads(FolderText(d));
    FolderRoundTrip(d);
  }

  lemma {:induction false} LinesBound(fields: seq<Field>)
    requires forall i :: 0 <= i < |fields| ==> |fields[i].tag| + |fields[i].value| + 6 <= 100
    ensures |Lines(fields)| <= |fields| * 100
  {
    if fields != [] {
      LineLength(fields[0]);
      LinesBound(fields[1..]);
      hide Line;
    }
  }

  lemma StorageFieldsShort(d: StorageDesc)
    requires StorageOk(d)
    ensures forall i :: 0 <= i < |StorageFields(d)| ==> |StorageFields(d)[i].tag| + |StorageFields(d)[i].value| + 6 <= 100
  {
    hide Decimal, Clean;
    NumberOk(d.magic);
    NumberOk(d.driveNumber);
    NumberOk(d.totalSize / WORD);
    NumberOk(d.totalSize % WORD);
    NumberOk(d.usedSize / WORD);
    NumberOk(d.usedSize % WORD);
    NumberOk(d.freeSize / WORD);
    NumberOk(d.freeSize % WORD);
    NumberOk(d.totalBlocks);
    NumberOk(d.usedBlocks);
    NumberOk(d.freeBlocks);
    NumberOk(d.rootBlock);
  }

  lemma StorageText(d: StorageDesc)
    requires StorageOk(d)
    ensures |PrintStorage(d)| < BLOCK_SIZE && NoNul(PrintStorage(d))
  {
    StorageFieldsShort(d);
    StorageFieldsOk(d);
    assert |StorageFields(d)| == 18;
    hide StorageFields, Lines, StorageOk, AllOk;
    LinesBound(StorageFields(d));
    LinesNoNul(StorageFields(d));
    JoinNoNul(Lines(StorageFields(d)), "@END@\n");
  }

  lemma StorageReads(d: StorageDesc)
    requires StorageOk(d)
    ensures |PrintStorage(d)| < BLOCK_SIZE
    ensures ParseStorage(CString(BlockOf(PrintStorage(d), 0))) ==
            if d.magic == MAGIC && d.totalBlocks != 0 && d.totalSize != 0 && d.rootBlock != 0 then Some(d) else None
  {
    hide PrintStorage, ParseStorage, CString, BlockOf, StorageOk, NoNul;
    StorageText(d);
    PaddedReads(PrintStorage(d));
    StorageRoundTrip(d, []);
    assert PrintStorage(d) + [] == PrintStorage(d);
  }

  // ---- what ties the parts together ----

  /** The block spells out the folder, which passed the limits of the writer. */
  ghost predicate Spelled(block: string, d: Folder) {
    |block| == BLOCK_SIZE && ParseFolder(CString(block)) == d && d.path != [] && FolderFits(d)
  }

  /** Every folder block spells out its folder. */
  ghost predicate Holds(disk: Disk, t: Tree) {
    forall f :: f in t.folders ==> f in disk && Spelled(disk[f], t.folders[f])
  }

  /** Blocks in use can be read. */
  ghost predicate Present(disk: Disk, t: Tree) {
    forall x :: Owned(t, x) ==> x in disk && |disk[x]| == BLOCK_SIZE
  }

  /** The descriptor is within its ranges and names the root and the size. */
  ghost predicate DescriptorOk(s: StorageDesc, root: nat, total: nat) {
    && StorageOk(s) && s.magic == MAGIC && s.rootBlock == root && s.totalBlocks == total
    && 0 < total <= MAX_BLOCKS && total * BLOCK_SIZE <= s.totalSize
  }

  /** Block 0 holds such a descriptor. */
  ghost predicate Described(disk: Disk, root: nat, total: nat) {
    0 in disk && ParseStorage(CString(disk[0])).Some? && DescriptorOk(ParseStorage(CString(disk[0])).value, root, total)
  }

  /** The list marks exactly the blocks in use. */
  ghost predicate Tracks(list: seq<Extent>, t: Tree) {
    forall x :: Covers(list, x) <==> Owned(t, x)
  }

  /** Block 0 spells out the descriptor, whose counts are those of the list. */
  ghost predicate Reported(disk: Disk, s: StorageDesc, total: nat, list: seq<Extent>) {
    && 0 in disk && ParseStorage(CString(disk[0])) == Some(s)
    && s.usedBlocks == Sum(list) && s.freeBlocks + s.usedBlocks == total
    && s.usedSize == s.usedBlocks * BLOCK_SIZE && s.freeSize + s.usedSize == s.totalSize
  }

  lemma ReportedKept(before: Disk, after: Disk, s: StorageDesc, total: nat, list: seq<Extent>)
    requires Reported(before, s, total, list) && 0 in after && after[0] == before[0]
    ensures Reported(after, s, total, list)
  {
  }

  /** The descriptors differ in their counts and the date of the last use only. */
  ghost predicate Recounted(a: StorageDesc, b: StorageDesc, now: string) {
    b == a.(freeBlocks := b.freeBlocks, usedBlocks := b.usedBlocks, usedSize := b.usedSize, freeSize := b.freeSize, lastMounted := now)
  }

  ghost predicate Sound(disk: Disk, s: StorageDesc, t: Tree, total: nat, list: seq<Extent>) {
    && WellFormed(t, total) && Holds(disk, t) && Present(disk, t)
    && DescriptorOk(s, t.root, total) && Described(disk, t.root, total)
    && Tracks(list, t)
  }

  /** Two lists that mark the blocks of the same tree are the same list, with the same free count. */
  lemma SameList(a: seq<Extent>, b: seq<Extent>, t: Tree, total: nat, freeA: nat, freeB: nat)
    requires Good(a, total, freeA) && Good(b, total, freeB) && Tracks(a, t) && Tracks(b, t)
    ensures a == b && freeA == freeB
  {
    hide Owned, Covers;
    CanonicalUnique(a, b);
  }

  // ---- what one operation leaves alone ----

  /** The disks differ in block 0, in the folder block p and in the run of e at most. */
  ghost predicate KeptBut(before: Disk, after: Disk, p: nat, e: Entry) {
    forall b :: b in before && b != 0 && b != p && !Has(e, b) ==> b in after && after[b] == before[b]
  }

  ghost predicate RunReadable(disk: Disk, e: Entry) {
    forall x :: Has(e, x) ==> x in disk && |disk[x]| == BLOCK_SIZE
  }

  /** Every folder of u is one that was left alone, or its block spells it out now. */
  ghost predicate Respelled(after: Disk, t: Tree, u: Tree, p: nat, e: Entry) {
    forall f :: f in u.folders ==>
      || (f in t.folders && f != p && !Has(e, f) && u.folders[f] == t.folders[f])
      || (f in after && Spelled(after[f], u.folders[f]))
  }

  lemma EditHolds(before: Disk, after: Disk, t: Tree, u: Tree, total: nat, p: nat, e: Entry)
    requires WellFormed(t, total) && Holds(before, t) && KeptBut(before, after, p, e) && Respelled(after, t, u, p, e)
    ensures Holds(after, u)
  {
    hide Spelled, WellFormed, Has;
    forall f | f in u.folders ensures f in after && Spelled(after[f], u.folders[f]) {
      if f in t.folders && f != p && !Has(e, f) && u.folders[f] == t.folders[f] {
        FolderIsOwned(t, total, f);
      }
    }
  }

  lemma EditPresent(before: Disk, after: Disk, t: Tree, u: Tree, p: nat, e: Entry)
    requires Present(before, t) && KeptBut(before, after, p, e) && RunReadable(after, e)
    requires p in after && |after[p]| == BLOCK_SIZE && 0 in after && |after[0]| == BLOCK_SIZE
    requires forall x :: Owned(u, x) ==> Owned(t, x) || Has(e, x)
    ensures Present(after, u)
  {
    hide Owned, Has;
  }

  /** The blocks of a run are unchanged. */
  ghost predicate RunKept(before: Disk, after: Disk, e: Entry) {
    forall x :: Has(e, x) ==> x in before && x in after && after[x] == before[x]
  }

  /** Every file but the one at (g, j) keeps its blocks. */
  ghost predicate FilesKept(t: Tree, before: Disk, after: Disk, g: nat, j: int) {
    forall f, i :: Slot(t, f, i) && !EntryAt(t, f, i).isDir && (f != g || i != j) ==> RunKept(before, after, EntryAt(t, f, i))
  }

  /** A folder block is in no file. */
  lemma FolderNotInFile(t: Tree, total: nat, f: nat, i: int, g: nat)
    requires WellFormed(t, total) && Slot(t, f, i) && !EntryAt(t, f, i).isDir && g in t.folders
    ensures !Has(EntryAt(t, f, i), g)
  {
    hide Slot;
    if g != t.root {
      assert Named(t, g);
      var h, j :| Slot(t, h, j) && EntryAt(t, h, j).isDir && EntryAt(t, h, j).start == g;
      assert Has(EntryAt(t, h, j), g);
      assert Disjoint(EntryAt(t, f, i), EntryAt(t, h, j));
    }
  }

  lemma OthersKept(t: Tree, total: nat, before: Disk, after: Disk, p: nat, k: int, e: Entry)
    requires WellFormed(t, total) && Present(before, t) && KeptBut(before, after, p, e) && p in t.folders
    requires forall x :: Has(e, x) && Owned(t, x) ==> Slot(t, p, k) && Has(EntryAt(t, p, k), x)
    ensures FilesKept(t, before, after, p, k)
  {
    hide Slot, FoldersOk, Disjoint;
    forall f, i | Slot(t, f, i) && !EntryAt(t, f, i).isDir && (f != p || i != k) ensures RunKept(before, after, EntryAt(t, f, i)) {
      var a := EntryAt(t, f, i);
      forall x | Has(a, x) ensures x in before && x in after && after[x] == before[x] {
        assert Owned(t, x) && x != 0;
        FolderNotInFile(t, total, f, i, p);
        if Has(e, x) {
          assert Disjoint(a, EntryAt(t, p, k));
          Meet(a, EntryAt(t, p, k), x);
        }
      }
    }
  }

  lemma Meet(a: Entry, b: Entry, x: int)
    requires Has(a, x) && Disjoint(a, b)
    ensures !Has(b, x)
  {
  }

  /** Only block 0 was written. */
  ghost predicate OnlyZero(before: Disk, after: Disk) {
    forall b :: b in before && b != 0 ==> b in after && after[b] == before[b]
  }

  lemma ZeroKeeps(before: Disk, after: Disk, t: Tree, total: nat)
    requires WellFormed(t, total) && Holds(before, t) && Present(before, t)
    requires OnlyZero(before, after) && 0 in after && |after[0]| == BLOCK_SIZE
    ensures Holds(after, t) && Present(after, t)
  {
    hide WellFormed, Spelled, Owned;
    forall f | f in t.folders ensures f in after && Spelled(after[f], t.folders[f]) {
      FolderIsOwned(t, total, f);
    }
  }

  // ---- scanning ----

  /** The list marks the runs of the folder's entries and those below the given subfolders as well. */
  ghost predicate Marked(after: seq<Extent>, before: seq<Extent>, t: Tree, f: nat, subs: seq<nat>)
    requires Ranked(t)
  {
    forall x :: Covers(after, x) <==> Covers(before, x) || Here(t, f, x) || UnderAny(t, subs, x)
  }

  /** The list marks the runs below the folder as well. */
  ghost predicate Scanned(after: seq<Extent>, before: seq<Extent>, t: Tree, f: nat)
    requires Ranked(t) && f in t.folders
  {
    forall x :: Covers(after, x) <==> Covers(before, x) || Under(t, f, x)
  }

  lemma MarkedMore(after: seq<Extent>, mid: seq<Extent>, before: seq<Extent>, t: Tree, f: nat, subs: seq<nat>, k: nat)
    requires Ranked(t) && k < |subs| && subs[k] in t.folders
    requires Marked(mid, before, t, f, subs[..k]) && Scanned(after, mid, t, subs[k])
    ensures Marked(after, before, t, f, subs[..k + 1])
  {
    hide Covers, Here, Under, Ranked;
    assert subs[..k + 1] == subs[..k] + [subs[k]];
  }

  lemma MarkedAll(after: seq<Extent>, before: seq<Extent>, t: Tree, f: nat, subs: seq<nat>)
    requires Ranked(t) && f in t.folders && Marked(after, before, t, f, subs[..|subs|])
    requires forall s :: s in subs <==> Subfolder(t, f, s)
    ensures Scanned(after, before, t, f)
  {
    hide Covers, Here, Under, Ranked, Subfolder;
    assert subs[..|subs|] == subs;
    forall x ensures Under(t, f, x) <==> Here(t, f, x) || UnderAny(t, subs, x) {
      UnderSplit(t, f, subs, x);
    }
  }

  /** Block 0, the root and a scan from the root are all the blocks in use. */
  lemma ScannedTracks(list: seq<Extent>, mid: seq<Extent>, t: Tree, total: nat)
    requires WellFormed(t, total) && Ranked(t) && Scanned(list, mid, t, t.root)
    requires forall x :: Covers(mid, x) <==> x == 0 || x == t.root
    ensures Tracks(list, t)
  {
    hide Covers, Under, InSlot, WellFormed, Ranked;
    forall x ensures Covers(list, x) <==> Owned(t, x) {
      ReachesAll(t, total, x);
    }
  }

  lemma SoundParts(disk: Disk, s: StorageDesc, t: Tree, total: nat, list: seq<Extent>)
    requires Sound(disk, s, t, total, list)
    ensures WellFormed(t, total) && t.root in t.folders && 1 <= t.root < total
    ensures Described(disk, t.root, total) && DescriptorOk(s, t.root, total)
  {
    hide FoldersOk, SlotsOk, Apart;
  }
}
