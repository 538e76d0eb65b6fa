/** The steps inside an operation: what they leave alone, and what they add up to. */
module Moves {
  import opened Options
  import opened Text
  import opened Words
  import opened Tags
  import opened FileHeader
  import opened FolderDesc
  import opened Layout
  import opened Image
  import opened Append
  import opened Files
  import opened Extents
  import opened Directory
  import opened Paths
  import opened Volume
  import opened Edits
  import opened Effects

  // ---- runs of blocks ----

  ghost predicate InUse(list: seq<Extent>, start: nat, count: nat) {
    forall x :: InRun(x, start, count) ==> Covers(list, x)
  }

  lemma FreeIsClear(list: seq<Extent>, total: nat, start: nat, need: nat, x: int)
    requires RunFree(list, total, start, need) && InRun(x, start, need)
    ensures !Covers(list, x) && start + need <= total
  {
  }

  lemma FullList(list: seq<Extent>, total: nat, count: nat)
    requires forall b :: 1 <= b ==> !RunFree(list, total, b, count)
    ensures NoSpace(list, total, count)
  {
  }

  lemma FoundSpace(list: seq<Extent>, total: nat, start: nat, count: nat)
    requires FirstFree(list, total, start, count)
    ensures !NoSpace(list, total, count) && start >= 1 && RunFree(list, total, start, count)
  {
  }

  /** Taking a run and giving it back leaves the list as it was. */
  lemma TakenAndFreed(list0: seq<Extent>, list: seq<Extent>, total: nat, free0: nat, free: nat, start: nat, count: nat)
    requires Good(list0, total, free0) && Good(list, total, free) && RunFree(list0, total, start, count)
    requires forall x :: Covers(list, x) <==> (Covers(list0, x) || InRun(x, start, count)) && !InRun(x, start, count)
    ensures list == list0 && free == free0
  {
    hide Covers;
    forall x ensures Covers(list, x) <==> Covers(list0, x) {
      if InRun(x, start, count) { FreeIsClear(list0, total, start, count, x); }
    }
    CanonicalUnique(list, list0);
  }

  /** The run that an existing entry has, or none. */
  lemma OldRun(t: Tree, total: nat, list: seq<Extent>, p: nat, k: nat, o: Entry)
    requires WellFormed(t, total) && total <= MAX_BLOCKS && Tracks(list, t)
    requires Slot(t, p, k) ==> o == EntryAt(t, p, k)
    requires !Slot(t, p, k) ==> o == NOTHING
    ensures InUse(list, o.start, o.count) && o.start < NO_BLOCK
    ensures Slot(t, p, k) ==> 1 <= o.start && 1 <= o.count
  {
    hide Covers, FoldersOk, Apart, Slot;
    if Slot(t, p, k) {
      assert Inside(o, t.root, total);
      forall x | InRun(x, o.start, o.count) ensures Covers(list, x) {
        assert Has(EntryAt(t, p, k), x);
        assert Owned(t, x);
      }
    }
  }

  /** The end of a run is freed, or nothing. */
  lemma Shrunk(before: seq<Extent>, after: seq<Extent>, o: Entry, e: Entry)
    requires InUse(before, o.start, o.count) && e.start == o.start && e.count <= o.count
    ensures IsDifference(after, before, o.start + e.count, o.start + o.count) || (e.count == o.count && after == before) ==>
              Exchanged(before, after, o, e)
  {
    hide Covers;
    forall x | Has(o, x) ensures Covers(before, x) {
      assert InRun(x, o.start, o.count);
    }
  }

  /** A free run is taken, and the old one freed, if there is one. */
  lemma Moved(before: seq<Extent>, mid: seq<Extent>, after: seq<Extent>, total: nat, o: Entry, e: Entry)
    requires InUse(before, o.start, o.count) && RunFree(before, total, e.start, e.count)
    requires IsUnion(mid, before, e.start, e.start + e.count)
    ensures IsDifference(after, mid, o.start, o.start + o.count) || (o.count == 0 && after == mid) ==> Exchanged(before, after, o, e)
  {
    hide Covers, RunFree;
    forall x | Has(e, x) ensures !Has(o, x) {
      assert InRun(x, e.start, e.count);
      FreeIsClear(before, total, e.start, e.count, x);
      assert InRun(x, o.start, o.count) <==> Has(o, x);
    }
  }

  lemma LandsSpace(list: seq<Extent>, total: nat, o: Entry, e: Entry)
    requires Lands(list, total, o, e) && (o.count > 0 ==> o.start >= 1) && e.count > 0
    ensures e.start >= 1 && !(NoSpace(list, total, e.count) && o.count < e.count)
  {
    hide RunFree;
    if o.count < e.count { FoundSpace(list, total, e.start, e.count); }
  }

  lemma LandsFits(list: seq<Extent>, total: nat, o: Entry, e: Entry)
    requires Lands(list, total, o, e) && e.count > 0
    ensures Fits(list, total, o, e)
  {
    hide RunFree;
  }

  /** A run taken from the free blocks lies beside the old one. */
  lemma FreshBeside(list: seq<Extent>, total: nat, o: Entry, e: Entry)
    requires InUse(list, o.start, o.count) && o.count > 0 && RunFree(list, total, e.start, e.count) && e.count > 0 && e.start >= 1
    ensures Beside(o.start, o.count, e.start, e.count) && Fits(list, total, o, e)
  {
    hide Covers;
    assert InRun(o.start, o.start, o.count) && InRun(e.start, e.start, e.count);
    FreeIsClear(list, total, e.start, e.count, e.start);
    if InRun(o.start, e.start, e.count) { FreeIsClear(list, total, e.start, e.count, o.start); }
  }

  // ---- arguments ----

  lemma ArgsOk(path: string, filetype: string, fileformat: string, now: string)
    requires FileArgs(path, filetype, fileformat, now)
    ensures PathOk(path) && Date(now)
  {
  }

  lemma NewMetaOk(path: string, filetype: string, fileformat: string, now: string, hidden: bool)
    requires FileArgs(path, filetype, fileformat, now)
    ensures MetaOk(NewMeta(path, filetype, fileformat, now, hidden))
  {
    CleanPart(path, LastSlash(path) + 1, |path|);
    CleanPart(path, 0, if LastSlash(path) == -1 then 0 else LastSlash(path));
    assert path[LastSlash(path) + 1..|path|] == Name(path);
    CleanEmpty();
    hide Clean, LastSlash;
  }

  lemma CleanPart(s: string, a: nat, b: nat)
    requires Clean(s) && a <= b <= |s|
    ensures Clean(s[a..b])
  {
  }

  lemma CleanEmpty()
    ensures Clean("")
  {
  }

  /** The entry that rmdir removes is that of the folder it looked into. */
  lemma TargetFolder(t: Tree, path: string, b: nat)
    requires Exists(t, path, true) && Lead(t, path) == Some(b) && t.folders[b].entries == []
    ensures var (p, k) := Target(t, path).value; t.folders[p].entries[k].start == b
  {
    hide Components, Parent, Name, Ranked, WalkFrom;
    var (p, k) := Target(t, path).value;
    ComponentsSplit(path);
    assert Components(Parent(path)) + [] == Components(Parent(path));
    if Name(path) != [] {
      WalkLast(t, t.root, Components(Parent(path)), Name(path), p);
    }
  }

  // ---- entries ----

  lemma HeldFolder(disk: Disk, t: Tree, f: nat)
    requires Holds(disk, t) && f in t.folders
    ensures f in disk && ParseFolder(CString(disk[f])) == t.folders[f]
  {
    hide ParseFolder, CString, FolderFits;
  }

  lemma SlotInside(t: Tree, total: nat, p: nat, k: nat)
    requires WellFormed(t, total) && Slot(t, p, k)
    ensures Inside(EntryAt(t, p, k), t.root, total)
  {
  }

  /** What the invariant says about one entry and its folder. */
  lemma SlotParts(disk: Disk, t: Tree, total: nat, p: nat, k: nat)
    requires WellFormed(t, total) && Holds(disk, t) && Slot(t, p, k)
    ensures Inside(EntryAt(t, p, k), t.root, total) && 1 <= p < total
    ensures FolderOk(Shortened(t.folders[p], k)) && FolderFits(Shortened(t.folders[p], k)) && t.folders[p].path != []
  {
    hide FolderFits, FolderOk;
    SlotInside(t, total, p, k);
    FolderIsOwned(t, total, p);
    ShortenedOk(t.folders[p], k);
    ShorterFits(t.folders[p], k);
  }

  lemma NewFolderOk(path: string)
    requires PathOk(path)
    ensures FolderOk(Folder(path, [])) && FolderFits(Folder(path, []))
  {
  }

  /** An entry in a free run can be added to a folder that is not full. */
  lemma NewEntryOk(disk: Disk, t: Tree, total: nat, p: nat, e: Entry, path: string, list: seq<Extent>)
    requires WellFormed(t, total) && total <= MAX_BLOCKS && Holds(disk, t) && p in t.folders && |t.folders[p].entries| < MAX_ENTRIES
    requires PathOk(path) && e.name == Truncate(Name(path), MAX_NAME)
    requires RunFree(list, total, e.start, e.count)
    ensures FolderOk(Extended(t.folders[p], e)) && t.folders[p].path != [] && 1 <= p < total && p in t.rank
    ensures FolderFits(Extended(t.folders[p], e)) <==> HasRoom(t.folders[p])
  {
    hide NameOk, LastSlash, RunFree, Named, SlotsOk, Apart, Truncate, Name, PathOk, FolderFits, HasRoom;
    FolderIsOwned(t, total, p);
    FreeFits(list, total, e.start, e.count);
    EntryNameOk(path);
    MoreEntries(t.folders[p], e);
    FitsExtended(t.folders[p], e);
  }

  lemma FullHasNoRoom(d: Folder)
    requires |d.entries| >= MAX_ENTRIES
    ensures !HasRoom(d)
  {
  }

  lemma MoreEntries(d: Folder, e: Entry)
    requires FolderOk(d) && |d.entries| < MAX_ENTRIES && EntryOk(e)
    ensures FolderOk(Extended(d, e))
  {
    hide EntryOk, OneLine;
  }

  lemma EntryNameOk(path: string)
    requires PathOk(path)
    ensures NameOk(Truncate(Name(path), MAX_NAME))
  {
    var name := Truncate(Name(path), MAX_NAME);
    forall i | 0 <= i < |name| ensures name[i] != ',' && name[i] != '\n' && name[i] != NUL {
      assert name[i] == path[LastSlash(path) + 1 + i];
    }
  }

  lemma ChangedEntryOk(disk: Disk, t: Tree, total: nat, list: seq<Extent>, p: nat, k: nat, e: Entry)
    requires WellFormed(t, total) && total <= MAX_BLOCKS && Holds(disk, t) && Tracks(list, t) && Slot(t, p, k)
    requires Fits(list, total, EntryAt(t, p, k), e) && e.name == EntryAt(t, p, k).name
    ensures FolderOk(Changed(t.folders[p], k, e)) && t.folders[p].path != [] && 1 <= p < total
  {
    hide NameOk, Fits, Named, Apart, SlotsOk, Tracks, FolderOk, FolderFits, ParseFolder;
    FolderIsOwned(t, total, p);
    FitsInside(list, t, total, p, k, e);
    ChangedOk(t.folders[p], k, e);
  }

  lemma ChangedOk(d: Folder, k: nat, e: Entry)
    requires FolderOk(d) && k < |d.entries| && e.name == d.entries[k].name && e.start < WORD && e.count < WORD
    ensures FolderOk(Changed(d, k, e))
  {
    hide NameOk, OneLine;
    assert EntryOk(d.entries[k]);
  }

  // ---- what is left alone ----

  /** Only block 0 and the run were written. */
  ghost predicate RunOnly(before: Disk, after: Disk, e: Entry) {
    forall b :: b in before && b != 0 && !Has(e, b) ==> b in after && after[b] == before[b]
  }

  lemma DescribedKept(before: Disk, after: Disk, root: nat, total: nat)
    requires Described(before, root, total) && 0 in after && after[0] == before[0]
    ensures Described(after, root, total)
  {
  }

  lemma HoldsReadable(disk: Disk, e: Entry, text: string)
    requires RunHolds(disk, e.start, e.count, text)
    ensures RunReadable(disk, e)
  {
    forall x | Has(e, x) ensures x in disk && |disk[x]| == BLOCK_SIZE {
      assert InRun(x, e.start, e.count);
      assert disk[x] == BlockOf(text, x - e.start);
    }
  }

  /** A run written and then block 0. */
  lemma RunThenZero(before: Disk, mid: Disk, after: Disk, e: Entry, text: string)
    requires Written(mid, before, e.start, e.count, text) && OnlyZero(mid, after) && e.start >= 1
    ensures RunOnly(before, after, e) && RunHolds(after, e.start, e.count, text) && RunReadable(after, e)
  {
    hide BlockOf;
    assert RunHolds(after, e.start, e.count, text) by {
      forall b | InRun(b, e.start, e.count) ensures b in after && after[b] == BlockOf(text, b - e.start) {
        assert Has(e, b);
      }
    }
    HoldsReadable(after, e, text);
    forall b | b in before && b != 0 && !Has(e, b) ensures b in after && after[b] == before[b] {
      assert !InRun(b, e.start, e.count);
    }
  }

  /** Then the folder's block. */
  lemma RunThenFolder(before: Disk, mid: Disk, after: Disk, p: nat, e: Entry, text: string)
    requires RunOnly(before, mid, e) && RunReadable(mid, e) && RunHolds(mid, e.start, e.count, text)
    requires p in after && after == mid[p := after[p]] && !Has(e, p)
    ensures KeptBut(before, after, p, e) && RunReadable(after, e) && RunHolds(after, e.start, e.count, text)
  {
    hide BlockOf;
    forall b | InRun(b, e.start, e.count) ensures b in after && after[b] == BlockOf(text, b - e.start) {
      assert Has(e, b);
    }
  }

  /** The folder's block and then block 0. */
  lemma FolderThenZero(before: Disk, mid: Disk, last: Disk, after: Disk, p: nat, e: Entry, text: string)
    requires Written(mid, before, e.start, e.count, text) && !Has(e, p) && e.start >= 1 && p >= 1
    requires p in last && last == mid[p := last[p]] && OnlyZero(last, after)
    ensures KeptBut(before, after, p, e) && RunReadable(after, e) && RunHolds(after, e.start, e.count, text)
    ensures p in after && after[p] == last[p]
  {
    hide BlockOf;
    assert RunHolds(after, e.start, e.count, text) by {
      forall b | InRun(b, e.start, e.count) ensures b in after && after[b] == BlockOf(text, b - e.start) {
        assert Has(e, b);
      }
    }
    HoldsReadable(after, e, text);
    forall b | b in before && b != 0 && b != p && !Has(e, b) ensures b in after && after[b] == before[b] {
      assert !InRun(b, e.start, e.count);
    }
  }

  /** The blocks that making a folder leaves alone. */
  lemma NewFolderKept(before: Disk, mid: Disk, last: Disk, after: Disk, t: Tree, total: nat, list: seq<Extent>, p: nat, e: Entry)
    requires WellFormed(t, total) && Tracks(list, t) && p in t.folders && p >= 1
    requires RunFree(list, total, e.start, e.count) && e.count == 1 && e.start >= 1
    requires p in mid && mid == before[p := mid[p]] && e.start in last && last == mid[e.start := last[e.start]]
    requires OnlyZero(last, after)
    ensures KeptBut(before, after, p, e) && p in after && after[p] == mid[p] && e.start in after && after[e.start] == last[e.start]
  {
    hide WellFormed, Covers, InSlot, RunFree;
    FreeIsUnused(list, t, total, e);
    FolderIsOwned(t, total, p);
    assert Has(e, e.start);
  }

  /** A new run or that of a file has no folder block in it. */
  lemma NoFolderInNew(t: Tree, total: nat, list: seq<Extent>, e: Entry, f: nat)
    requires WellFormed(t, total) && Tracks(list, t) && f in t.folders
    requires RunFree(list, total, e.start, e.count) && e.count >= 1 && e.start >= 1
    ensures !Has(e, f) && 1 <= f < total
  {
    hide WellFormed, Covers, InSlot, RunFree;
    FreeIsUnused(list, t, total, e);
    FolderIsOwned(t, total, f);
  }

  lemma NoFolderInOld(t: Tree, total: nat, list: seq<Extent>, p: nat, k: nat, e: Entry, f: nat)
    requires WellFormed(t, total) && Tracks(list, t) && Slot(t, p, k) && !EntryAt(t, p, k).isDir && f in t.folders
    requires Fits(list, total, EntryAt(t, p, k), e)
    ensures !Has(e, f) && 1 <= f < total
  {
    hide Covers, InSlot, Fits, Tracks, FoldersOk, SlotsOk, Apart;
    FitsInside(list, t, total, p, k, e);
    FolderIsOwned(t, total, f);
    FolderNotInFile(t, total, p, k, f);
  }

  // ---- when the folder cannot be written any more ----

  lemma StillMountable(before: Disk, after: Disk, t: Tree, total: nat, e: Entry)
    requires WellFormed(t, total) && Holds(before, t) && Present(before, t)
    requires RunOnly(before, after, e) && RunReadable(after, e) && 0 in after && |after[0]| == BLOCK_SIZE
    requires Described(after, t.root, total) && forall f :: f in t.folders ==> f != 0 && !Has(e, f)
    ensures Mountable(after, t, total)
  {
    hide WellFormed, Spelled, Owned, Has, Described;
    assert forall f :: f in t.folders ==> f in before;
  }

  lemma NewNotTracked(list0: seq<Extent>, list: seq<Extent>, t: Tree, total: nat, o: Entry, e: Entry)
    requires Tracks(list0, t) && Exchanged(list0, list, o, e) && RunFree(list0, total, e.start, e.count) && e.count > 0
    ensures !Tracks(list, t)
  {
    hide Covers, Owned;
    FreeBlock(list0, total, e.start, e.count, e.start);
    assert Has(e, e.start);
  }

  lemma ShrunkNotTracked(list0: seq<Extent>, list: seq<Extent>, t: Tree, p: nat, k: nat, e: Entry)
    requires Slot(t, p, k) && Exchanged(list0, list, EntryAt(t, p, k), e)
    requires e.start == EntryAt(t, p, k).start && e.count < EntryAt(t, p, k).count
    ensures !Tracks(list, t)
  {
    hide Covers;
    var x := e.start + e.count;
    assert Has(EntryAt(t, p, k), x) && !Has(e, x);
    assert Owned(t, x);
  }

  lemma SameFits(d: Folder, k: nat)
    requires k < |d.entries| && FolderFits(d)
    ensures FolderFits(Changed(d, k, d.entries[k]))
  {
    assert d.entries[k := d.entries[k]] == d.entries;
  }

  lemma FolderWritten(disk: Disk, t: Tree, p: nat)
    requires Holds(disk, t) && p in t.folders
    ensures FolderFits(t.folders[p])
  {
  }

  /** The entry does not fit, so it is another one: the list has changed. */
  lemma ChangedNotTracked(disk: Disk, list0: seq<Extent>, list: seq<Extent>, t: Tree, total: nat, p: nat, k: nat, e: Entry)
    requires Holds(disk, t) && Tracks(list0, t) && Slot(t, p, k) && e.count > 0
    requires e == EntryAt(t, p, k).(start := e.start, count := e.count) && Lands(list0, total, EntryAt(t, p, k), e)
    requires Exchanged(list0, list, EntryAt(t, p, k), e) && !FolderFits(Changed(t.folders[p], k, e))
    ensures !Tracks(list, t)
  {
    hide Covers, FolderFits, Tracks, RunFree, Exchanged, Holds, Changed;
    var o := EntryAt(t, p, k);
    FolderWritten(disk, t, p);
    SameFits(t.folders[p], k);
    assert e.start == o.start ==> e.count != o.count;
    if o.start != 0 && o.count >= e.count {
      ShrunkNotTracked(list0, list, t, p, k, e);
    } else {
      NewNotTracked(list0, list, t, total, o, e);
    }
  }

  // ---- appending ----

  /** The bytes of a run do not depend on how much of it is looked at. */
  lemma BytesOfRun(disk: Disk, start: nat, n: nat, count: nat, from: nat, len: nat)
    requires Layout.Readable(disk, start, n) && Layout.Readable(disk, start, count)
    requires from + len <= n * BLOCK_SIZE && from + len <= count * BLOCK_SIZE
    ensures Bytes(disk, start, n, from, len) == Bytes(disk, start, count, from, len)
  {
    hide ByteAt, Bytes, Layout.Readable;
    var x, y := Bytes(disk, start, n, from, len), Bytes(disk, start, count, from, len);
    forall k | 0 <= k < len ensures x[k] == y[k] {
      BytesAt(disk, start, n, from, len, k);
      BytesAt(disk, start, count, from, len, k);
      ByteOfRun(disk, start, n, count, from + k);
    }
  }

  lemma BytesAt(disk: Disk, start: nat, count: nat, from: nat, len: nat, k: nat)
    requires Layout.Readable(disk, start, count) && from + len <= count * BLOCK_SIZE && k < len
    ensures Bytes(disk, start, count, from, len)[k] == ByteAt(disk, start, count, from + k)
  {
    hide ByteAt;
  }

  lemma ByteOfRun(disk: Disk, start: nat, n: nat, count: nat, p: nat)
    requires Layout.Readable(disk, start, n) && Layout.Readable(disk, start, count)
    requires p < n * BLOCK_SIZE && p < count * BLOCK_SIZE
    ensures ByteAt(disk, start, n, p) == ByteAt(disk, start, count, p)
  {
    hide Layout.Readable;
  }

  lemma WrittenHolds(disk: Disk, before: Disk, start: nat, count: nat, text: string)
    requires Written(disk, before, start, count, text)
    ensures RunHolds(disk, start, count, text)
  {
  }

  /** What was copied, in terms of the whole old run. */
  lemma CopiedAside(before: Disk, after: Disk, list: seq<Extent>, total: nat, o: Entry, e: Entry, plan: Plan, data: string, copied: string)
    requires Layout.Readable(before, o.start, o.count) && o.count > 0 && InUse(list, o.start, o.count)
    requires RunFree(list, total, e.start, e.count) && e.start >= 1 && e.count > 0
    requires e.count == plan.count && |copied| == plan.oldLen
    requires Written(after, before, e.start, e.count, plan.header + copied + data + FOOTER)
    requires var n := BlockCount(plan.offset + PlanReach(plan));
             Layout.Readable(before, o.start, n) && (Beside(o.start, n, e.start, e.count) ==> CopiedFrom(before, o.start, n, plan, copied))
    ensures Copied(before, after, o, e, plan, data, copied)
  {
    hide Written, RunFree, InUse, Layout.Readable, RunHolds, Bytes, PlanReach;
    var n := BlockCount(plan.offset + PlanReach(plan));
    WrittenHolds(after, before, e.start, e.count, plan.header + copied + data + FOOTER);
    FreshBeside(list, total, o, e);
    if plan.offset + PlanReach(plan) <= o.count * BLOCK_SIZE {
      BesideLess(o.start, n, o.count, e.start, e.count);
      BytesOfRun(before, o.start, n, o.count, plan.offset, PlanReach(plan));
    }
  }

  lemma BesideLess(start: nat, n: nat, count: nat, from: nat, size: nat)
    requires Beside(start, count, from, size) && n <= count
    ensures Beside(start, n, from, size)
  {
  }

  lemma BlocksOf(size: nat)
    ensures size <= BlockCount(size) * BLOCK_SIZE
    ensures forall n: nat :: size <= n * BLOCK_SIZE ==> BlockCount(size) <= n
  {
    forall n: nat | size <= n * BLOCK_SIZE ensures BlockCount(size) <= n {
      assert size + BLOCK_SIZE - 1 < (n + 1) * BLOCK_SIZE;
    }
  }

  lemma SlotReadable(disk: Disk, t: Tree, total: nat, p: nat, k: nat)
    requires WellFormed(t, total) && Present(disk, t) && Slot(t, p, k)
    ensures var o := EntryAt(t, p, k); o.count > 0 && o.start in disk && Layout.Readable(disk, o.start, o.count)
  {
    hide FoldersOk, Apart;
    var o := EntryAt(t, p, k);
    assert Inside(o, t.root, total);
    forall b | InRun(b, o.start, o.count) ensures b in disk && |disk[b]| == BLOCK_SIZE {
      assert Has(EntryAt(t, p, k), b);
      assert Owned(t, b);
    }
    assert InRun(o.start, o.start, o.count);
  }

  /** A run written and nothing else. */
  lemma RunWritten(before: Disk, after: Disk, e: Entry, text: string)
    requires Written(after, before, e.start, e.count, text)
    ensures RunOnly(before, after, e) && RunReadable(after, e) && RunHolds(after, e.start, e.count, text)
    ensures forall b :: b in before && !Has(e, b) ==> b in after && after[b] == before[b]
  {
    hide BlockOf;
    HoldsReadable(after, e, text);
    forall b | b in before && !Has(e, b) ensures b in after && after[b] == before[b] {
      assert !InRun(b, e.start, e.count);
    }
  }
}
