/** What is written to a path and appended to it, read back from the path. */
module Readback {
  import opened Options
  import opened Text
  import opened Words
  import opened Tags
  import opened FileHeader
  import opened FileLength
  import opened FolderDesc
  import opened Layout
  import opened Image
  import opened Stream
  import opened Files
  import opened Extents
  import opened Directory
  import opened Paths
  import opened Volume
  import opened Effects
  import opened Moves
  import opened Witnesses
  import opened MinimaFS
  import opened Runs
  import opened Sessions

  /** minimafs_open for reading. */
  method OpenAt(d: Drive, path: string) returns (h: Handle?)
    requires d.Valid()
    ensures h == null <==> !Exists(d.tree, path, false)
    ensures h != null ==>
              var e := FileAt(d.tree, path);
              && fresh(h) && h.Valid() && h.position == 0 && h.disk == d.disk && h.start == e.start && h.count == e.count
              && Readable(d.disk, e.start, e.count)
              && h.dataOffset == OpenedOffset(d.disk, e.start, e.count) && h.dataSize == OpenedLength(d.disk, e.start, e.count)
  {
    hide WellFormed, Holds, Present, Tracks, Described, Target, Covers, Readable, OpenedOffset, OpenedLength;
    SoundParts(d.disk, d.storage, d.tree, d.alloc.total, d.alloc.List());
    var found := d.LookUp(path);
    if found == None { return null; }
    var (p, k, folder) := found.value;
    if k == |folder.entries| { return null; }
    var e := folder.entries[k];
    if e.isDir { return null; }
    assert Slot(d.tree, p, k) && EntryAt(d.tree, p, k) == e;
    SlotReadable(d.disk, d.tree, d.alloc.total, p, k);
    h := Open(d.disk, e.start, e.count);
  }

  /** The file at the path holds this record and data. */
  ghost predicate FileIs(a: Moment, path: string, m: FileMeta, data: string) {
    Exists(a.tree, path, false) && IsFile(a.disk, FileAt(a.tree, path).start, FileAt(a.tree, path).count, m, data)
  }

  /** The lengths seen in the first block of the file are those of its data. */
  ghost predicate ReadsWhole(m: FileMeta, data: string) { |PrintHeader(m)| <= BLOCK_SIZE && LengthSeen(m, data) }

  /** The whole file at a path, or nothing when there is none. */
  method ReadAll(d: Drive, path: string, ghost m: FileMeta, ghost data: string) returns (found: bool, text: string)
    requires d.Valid()
    ensures found <==> Exists(d.tree, path, false)
    ensures FileIs(d.Now(), path, m, data) ==> (text == data <==> ReadsWhole(m, data))
    ensures found && FileAt(d.tree, path).count * BLOCK_SIZE < WORD ==> |text| <= FileAt(d.tree, path).count * BLOCK_SIZE
  {
    hide SoundAt, IsFile, Exists, FileAt, LengthSeen, PrintHeader, OpenedOffset, OpenedLength, Readable;
    text := [];
    var h := OpenAt(d, path);
    found := h != null;
    if found {
      text := h.Read(h.dataSize);
      if h.count * BLOCK_SIZE < WORD { h.SeenInRun(0, h.dataSize); }
      if FileIs(d.Now(), path, m, data) { OpenReads(h, m, data); }
    }
  }

  // ---- a file just written ----

  lemma MadeFound(a: Moment, b: Moment, total: nat, path: string, m: FileMeta, data: string)
    requires SoundAt(a, total) && SoundAt(b, total) && FileMade(a, b, total, path, m, data)
    requires !Exists(a.tree, path, false) && !Exists(a.tree, path, true)
    ensures |Name(path)| < MAX_NAME ==> FileIs(b, path, SettledMeta(m, |data|), data)
    ensures |Name(path)| >= MAX_NAME ==> !Exists(b.tree, path, false)
  {
    if |Name(path)| >= MAX_NAME {
      LongNameMissing(b.tree, total, path);
    } else {
      hide WellFormed, Holds, Present, Described, Tracks, FilesKept, AddFile, FirstFree, IsFile, FileBlocks, Lead, Name, SettledMeta;
      var p := Target(a.tree, path).value.0;
      var n := |a.tree.folders[p].entries|;
      AddedFound(a.tree, total, p, EntryAt(b.tree, p, n), path);
    }
  }

  lemma AddedFound(t: Tree, total: nat, p: nat, e: Entry, path: string)
    requires WellFormed(t, total) && p in t.folders && WellFormed(AddFile(t, p, e), total)
    requires Target(t, path) == Some((p, |t.folders[p].entries|)) && e.name == Name(path) && !e.isDir
    ensures Exists(AddFile(t, p, e), path, false) && FileAt(AddFile(t, p, e), path) == e
  {
    hide SubStays, Name, SlotsOk, Apart, Lead;
    var u, a := AddFile(t, p, e), t.folders[p].entries;
    FoldersPositive(t, total);
    forall f, name | f in t.folders && f != 0 && f in u.folders ensures SubStays(t.folders[f].entries, u.folders[f].entries, name, 0) {
      if f == p { AddStays(t.folders[f].entries, e, name); } else { SelfStays(t.folders[f].entries, name, 0); }
    }
    LeadOn(t, u, total, 0, Parent(path));
    NamedIs(a + [e], Name(path), |a|);
  }

  lemma SetFound(a: Moment, b: Moment, total: nat, path: string, e: Entry)
    requires SoundAt(a, total) && SoundAt(b, total) && Exists(a.tree, path, false) && b.tree == SetEntry(a.tree, path, e)
    requires e == OldEntry(a.tree, path).(start := e.start, count := e.count)
    ensures Exists(b.tree, path, false) && FileAt(b.tree, path) == e
  {
    hide Target, WellFormed, Holds, Present, Described, Tracks;
    var (p, k) := Target(a.tree, path).value;
    FileSlot(a.tree, path);
    SetFileFound(a.tree, total, p, k, e, path);
    SetSlot(a.tree, p, k, e, p, k);
  }

  /** A written file is found by its path if and only if its name is shorter than 64 bytes. */
  lemma WrittenFound(a: Moment, b: Moment, total: nat, path: string, filetype: string, fileformat: string, now: string, data: string)
    requires SoundAt(a, total) && SoundAt(b, total) && WriteEffect(a, b, total, path, filetype, fileformat, now, data, Done)
    ensures var m := NewMeta(path, filetype, fileformat, now, IsHidden(a.tree, path));
            |Name(path)| < MAX_NAME ==> FileIs(b, path, SettledMeta(m, |data|), data)
    ensures |Name(path)| >= MAX_NAME ==> !Exists(b.tree, path, false)
  {
    hide SoundAt, Target, FileMade, HasRoom, NoSpace, FileBlocks, Lands, EntryFits, IsFile, KeptOthers, SetEntry, OldEntry, NewMeta,
         SettledMeta, Name, FileAt;
    var m := NewMeta(path, filetype, fileformat, now, IsHidden(a.tree, path));
    if Exists(a.tree, path, false) {
      var e :| Rewritten(a, b, total, path, m, data, Done, e);
      SetFound(a, b, total, path, e);
      ShortName(a, total, path);
    } else {
      MadeFound(a, b, total, path, m, data);
    }
  }

  lemma ShortName(a: Moment, total: nat, path: string)
    requires SoundAt(a, total) && Exists(a.tree, path, false)
    ensures |Name(path)| < MAX_NAME
  {
    hide FoldersOk, SlotsOk, Apart, Holds, Present, Described, Tracks, Target, Exists, Name;
    if |Name(path)| >= MAX_NAME { LongNameMissing(a.tree, total, path); }
  }

  /** What is written to a path is found again if and only if the name is shorter than 64 bytes, and is then read
      back if and only if the lengths seen in its first block are those of the data. */
  method WriteThenRead(d: Drive, path: string, seg1: string, seg2: string, filetype: string, fileformat: string, now: string)
    returns (outcome: Outcome, found: bool, text: string)
    requires d.Valid() && FileArgs(path, filetype, fileformat, now) && SizeOk(|seg1| + |seg2|)
    modifies d, d.alloc, d.alloc.ext
    ensures outcome == Done ==> d.Valid() && (found <==> |Name(path)| < MAX_NAME)
    ensures outcome == Done && found ==>
              var m := SettledMeta(NewMeta(path, filetype, fileformat, now, IsHidden(old(d.tree), path)), |seg1 + seg2|);
              text == seg1 + seg2 <==> ReadsWhole(m, seg1 + seg2)
    ensures WriteEffect(old(d.Now()), d.Now(), d.alloc.total, path, filetype, fileformat, now, seg1 + seg2, outcome)
  {
    hide SoundAt, WriteEffect, FileArgs, FileIs, ReadsWhole, NewMeta, SettledMeta, IsHidden, Exists, Name;
    ghost var a, m := d.Now(), SettledMeta(NewMeta(path, filetype, fileformat, now, IsHidden(d.tree, path)), |seg1 + seg2|);
    found, text := false, [];
    outcome := d.WriteFile(path, seg1, seg2, filetype, fileformat, now);
    if outcome == Done {
      WrittenFound(a, d.Now(), d.alloc.total, path, filetype, fileformat, now, seg1 + seg2);
      found, text := ReadAll(d, path, m, seg1 + seg2);
      FileExists(d.Now(), path, m, seg1 + seg2);
    }
  }

  lemma FileExists(a: Moment, path: string, m: FileMeta, data: string)
    ensures FileIs(a, path, m, data) ==> Exists(a.tree, path, false)
  {
  }

  /** Mounting again changes no file. */
  lemma RemountedFile(a: Moment, b: Moment, total: nat, path: string, m: FileMeta, data: string)
    requires SoundAt(a, total) && b.tree == a.tree && OnlyZero(a.disk, b.disk) && FileIs(a, path, m, data)
    ensures FileIs(b, path, m, data)
  {
    hide Target, IsFile, Covers, Holds, Present, Tracks, Described, DescriptorOk, WellFormed;
    var (p, k) := Target(a.tree, path).value;
    FileSlot(a.tree, path);
    SlotInside(a.tree, total, p, k);
    var e := FileAt(a.tree, path);
    RunOnDisk(a.disk, e.start, e.count, m, data);
    StillFile(a.disk, b.disk, e.start, e.count, m, data);
  }

  lemma RunOnDisk(disk: Disk, start: nat, count: nat, m: FileMeta, data: string)
    requires IsFile(disk, start, count, m, data)
    ensures forall b :: InRun(b, start, count) ==> b in disk
  {
    hide MetaOk, FileText, BlockOf;
  }

  // ---- appending ----

  /** The record of a file as an append reads it, with a new date. */
  ghost function Reread(m: FileMeta, held: string, now: string): FileMeta
    requires |PrintHeader(m)| <= BLOCK_SIZE
  {
    AsRead(m, Visible(m, held)).(lastChanged := now)
  }

  /** How much of the old data an append keeps: all of it if FILELEN is the length of the file. */
  ghost function KeptLength(m: FileMeta, held: string, count: nat): nat
    requires |PrintHeader(m)| <= BLOCK_SIZE
  {
    OldLength(AsRead(m, Visible(m, held)), |PrintHeader(m)|, count)
  }

  /** The append reads a header within the formats and no more than the file. */
  ghost predicate WithinFile(m: FileMeta, held: string, count: nat, now: string) {
    && |PrintHeader(m)| <= BLOCK_SIZE && MetaOk(Reread(m, held, now)) && SeenSize(m, held, count) <= |FileText(m, held)|
  }

  /** What is seen in front of an append to a file. */
  lemma PlanOfFile(a: Moment, path: string, m: FileMeta, held: string, data: string, now: string)
    requires FileIs(a, path, m, held)
    requires |PrintHeader(m)| <= BLOCK_SIZE && SeenSize(m, held, FileAt(a.tree, path).count) <= |FileText(m, held)|
    ensures var o := FileAt(a.tree, path);
            var plan := PlanAt(a, path, data, now);
            && Recognised(FirstText(a, o)) && MetaOf(FirstText(a, o)) == AsRead(m, Visible(m, held))
            && plan.oldLen == KeptLength(m, held, o.count) <= |held| && plan.offset + plan.oldLen <= o.count * BLOCK_SIZE
            && Readable(a.disk, o.start, o.count)
            && Bytes(a.disk, o.start, o.count, plan.offset, plan.oldLen) == held[..plan.oldLen]
    ensures forall total: nat :: ReadsSucceed(a, total, path, data, now)
  {
    hide PrintHeader, ParseHeader, Find, CString, Recognised, IsFile, AsRead, Visible, SeenSize, Readable, Bytes, FileText, WrappedMeta,
         Exists, FileAt, OldLength, WrappedCount, PlanReach;
    var o := FileAt(a.tree, path);
    OldDataFound(a.disk, o.start, o.count, m, held);
    TextSize(m, held);
    FileSeen(a.disk, o.start, o.count, m, held);
    var plan := PlanAt(a, path, data, now);
    FilePart(a.disk, o.start, o.count, m, held, plan.oldLen);
    BlocksOf(plan.offset + PlanReach(plan));
    PartReadable(a.disk, o.start, o.count, BlockCount(plan.offset + PlanReach(plan)));
  }

  lemma PartReadable(disk: Disk, start: nat, count: nat, n: nat)
    requires Readable(disk, start, count) && n <= count
    ensures Readable(disk, start, n)
  {
    forall b | InRun(b, start, n) ensures b in disk && |disk[b]| == BLOCK_SIZE {
      assert InRun(b, start, count);
    }
  }

  /** After an append the file holds what was kept of the old data and the new data, if and only if that fits into
      32 bits; otherwise its run is too short for the data. */
  lemma AppendedFile(a: Moment, b: Moment, total: nat, path: string, m: FileMeta, held: string, data: string, now: string)
    requires SoundAt(a, total) && SoundAt(b, total) && AppendEffect(a, b, total, path, data, now, Done)
    requires FileIs(a, path, m, held) && WithinFile(m, held, FileAt(a.tree, path).count, now)
    ensures Exists(b.tree, path, false)
    ensures var n := KeptLength(m, held, FileAt(a.tree, path).count);
            && n <= |held|
            && (AppendFits(Reread(m, held, now), n + |data|) ==> FileIs(b, path, SettledMeta(Reread(m, held, now), n + |data|), held[..n] + data))
            && (!AppendFits(Reread(m, held, now), n + |data|) ==> FileAt(b.tree, path).count * BLOCK_SIZE < n + |data|)
            && FileAt(b.tree, path).count * BLOCK_SIZE < WORD
  {
    hide SoundAt, Target, NoSpace, FirstFree, EntryFits, KeptOthers, SetEntry, PrintHeader, Recognised, IsFile, AsRead, Visible, SeenSize,
         Readable, Bytes, FileText, SettledMeta, Exists, FileAt, KeptLength, MetaOk, RunHolds, Planned, MetaOf, AppendFits, CopiedFrom, PlanReach;
    var e :| Appended(a, b, total, path, data, now, Done, e);
    var o, plan := FileAt(a.tree, path), PlanAt(a, path, data, now);
    var n := KeptLength(m, held, o.count);
    PlanOfFile(a, path, m, held, data, now);
    var copied :| Copied(a.disk, b.disk, OldEntry(a.tree, path), e, plan, data, copied);
    SetFound(a, b, total, path, e);
    PlanShort(FirstText(a, o), o.count, |data|, now);
    AppendedIsFile(b.disk, FirstText(a, o), o.count, data, now, e.start, copied);
    if AppendFits(Reread(m, held, now), n + |data|) {
      PlanFits(FirstText(a, o), o.count, |data|, now);
      WholeCopy(a.disk, o, plan, data, copied);
    } else {
      PlanWraps(FirstText(a, o), o.count, |data|, now);
    }
  }

  /** Whatever FILELEN is seen: the file holds as many bytes as that claims, and the new data, if and only if that fits
      into 32 bits. The bytes are those of the old run if they lie in it. */
  lemma AppendedAny(a: Moment, b: Moment, total: nat, path: string, m: FileMeta, held: string, data: string, now: string) returns (copied: string)
    requires SoundAt(a, total) && SoundAt(b, total) && AppendEffect(a, b, total, path, data, now, Done)
    requires FileIs(a, path, m, held) && |PrintHeader(m)| <= BLOCK_SIZE && MetaOk(Reread(m, held, now))
    ensures var o := FileAt(a.tree, path);
            var n := KeptLength(m, held, o.count);
            && |copied| == n
            && (FileIs(b, path, SettledMeta(Reread(m, held, now), n + |data|), copied + data) <==> AppendFits(Reread(m, held, now), n + |data|))
            && (AppendFits(Reread(m, held, now), n + |data|) && |PrintHeader(m)| + n <= o.count * BLOCK_SIZE ==>
                  Readable(a.disk, o.start, o.count) && copied == Bytes(a.disk, o.start, o.count, |PrintHeader(m)|, n))
  {
    hide SoundAt, Target, NoSpace, FirstFree, EntryFits, KeptOthers, SetEntry, PrintHeader, Recognised, IsFile, AsRead, Visible, SeenSize,
         Readable, Bytes, FileText, SettledMeta, Exists, FileAt, KeptLength, MetaOk, RunHolds, Planned, MetaOf, AppendFits, CopiedFrom, PlanReach;
    var e :| Appended(a, b, total, path, data, now, Done, e);
    var o, plan := FileAt(a.tree, path), PlanAt(a, path, data, now);
    var n := KeptLength(m, held, o.count);
    PlanOfAny(a, path, m, held, data, now);
    copied :| Copied(a.disk, b.disk, OldEntry(a.tree, path), e, plan, data, copied);
    SetFound(a, b, total, path, e);
    AppendedIsFile(b.disk, FirstText(a, o), o.count, data, now, e.start, copied);
    if AppendFits(Reread(m, held, now), n + |data|) {
      PlanFits(FirstText(a, o), o.count, |data|, now);
      if plan.offset + plan.oldLen <= o.count * BLOCK_SIZE { WholeCopy(a.disk, o, plan, data, copied); }
    } else {
      PlanWraps(FirstText(a, o), o.count, |data|, now);
      FileRoom(b.disk, e.start, e.count, SettledMeta(Reread(m, held, now), n + |data|), copied + data);
    }
  }

  lemma PlanOfAny(a: Moment, path: string, m: FileMeta, held: string, data: string, now: string)
    requires FileIs(a, path, m, held) && |PrintHeader(m)| <= BLOCK_SIZE
    ensures var o := FileAt(a.tree, path);
            var plan := PlanAt(a, path, data, now);
            && Recognised(FirstText(a, o)) && MetaOf(FirstText(a, o)) == AsRead(m, Visible(m, held))
            && plan.oldLen == KeptLength(m, held, o.count) && plan.offset == |PrintHeader(m)|
  {
    hide PrintHeader, ParseHeader, Find, CString, Recognised, IsFile, AsRead, Visible, SeenSize, FileText, WrappedMeta, Exists, FileAt, OldLength,
         WrappedCount;
    var o := FileAt(a.tree, path);
    OldDataFound(a.disk, o.start, o.count, m, held);
  }

  lemma PlanShort(text: string, count: nat, n: nat, now: string)
    ensures Planned(text, count, n, now).count * BLOCK_SIZE < WORD
  {
    hide PrintHeader, ParseHeader, Find, WrappedMeta, WrappedCount, MetaOf, OffsetOf, OldLength;
    var plan := Planned(text, count, n, now);
    CountShort(|plan.header| + (plan.oldLen + n) % WORD + FOOTER_SIZE);
  }

  /** A run that is long enough has all of the old data. */
  lemma WholeCopy(disk: Disk, o: Entry, plan: Plan, data: string, copied: string)
    requires plan.offset + plan.oldLen <= o.count * BLOCK_SIZE && |copied| == plan.oldLen
    requires plan.offset + PlanReach(plan) <= o.count * BLOCK_SIZE ==> CopiedFrom(disk, o.start, o.count, plan, copied)
    requires plan.count == BlockCount(|plan.header| + plan.oldLen + |data| + FOOTER_SIZE)
    ensures Readable(disk, o.start, o.count) && copied == Bytes(disk, o.start, o.count, plan.offset, plan.oldLen)
  {
    hide Readable, Bytes;
    BlocksOf(|plan.header| + plan.oldLen + |data| + FOOTER_SIZE);
    assert PlanReach(plan) == plan.oldLen;
    assert copied[..plan.oldLen] == copied;
  }

  /** Of a file whose FILELEN is seen and settled everything is kept; when it did not settle, all but the last byte. */
  lemma KeptWhole(disk: Disk, start: nat, count: nat, m: FileMeta, held: string)
    requires IsFile(disk, start, count, m, held) && |PrintHeader(m)| <= BLOCK_SIZE && SeenFile(m, held) == m.fileLength
    ensures m.fileLength == |FileText(m, held)| ==> KeptLength(m, held, count) == |held|
    ensures m.fileLength == |FileText(m, held)| - 1 && held != [] ==> KeptLength(m, held, count) == |held| - 1
    ensures SeenSize(m, held, count) == m.fileLength <= |FileText(m, held)|
  {
    hide PrintHeader, ParseHeader, Find, CString, Recognised, IsFile, AsRead, Visible, FileText, OldLength, SeenFile;
    OldDataFound(disk, start, count, m, held);
    TextSize(m, held);
    FileSeen(disk, start, count, m, held);
    FileLengths(disk, start, count, m, held);
  }

  lemma FileLengths(disk: Disk, start: nat, count: nat, m: FileMeta, data: string)
    requires IsFile(disk, start, count, m, data)
    ensures m.fileLength <= |FileText(m, data)| && MetaOk(m)
  {
  }

  // ---- any number of appends ----

  ghost function Joined(pieces: seq<string>): string {
    if pieces == [] then "" else Joined(pieces[..|pieces| - 1]) + pieces[|pieces| - 1]
  }

  /** A record that is printed as it is. */
  ghost predicate PlainRecord(m: FileMeta) { !m.runnable && m.entrypoint == 0 && m.runWith == "" }

  /** A file with this data shows no tag in its first block, and its FILELEN settles. */
  ghost predicate Steady(m: FileMeta, data: string) {
    && SizeOk(|data|) && |PrintHeader(SettledMeta(m, |data|))| <= BLOCK_SIZE
    && Harmless(Visible(SettledMeta(m, |data|), data)) && Settles(Base(m.(dataLength := |data|)), |data|)
  }

  lemma SteadySeen(m: FileMeta, data: string)
    requires Steady(m, data) && PlainRecord(m)
    ensures var meta := SettledMeta(m, |data|);
            && AsRead(meta, Visible(meta, data)) == meta && SeenFile(meta, data) == meta.fileLength && ReadsWhole(meta, data)
  {
    hide PrintHeader, Visible, ParseTag, ParseNumber, ParseBool, Find, Key, Base, Recorded, Settles, FileText;
    HarmlessKeeps(SettledMeta(m, |data|), Visible(SettledMeta(m, |data|), data));
  }

  /** One more piece: a steady file becomes the file with the piece appended. */
  lemma SteadyAppend(a: Moment, b: Moment, total: nat, path: string, m: FileMeta, held: string, data: string, now: string)
    requires SoundAt(a, total) && SoundAt(b, total) && AppendEffect(a, b, total, path, data, now, Done)
    requires MetaOk(m) && PlainRecord(m) && Date(now) && Steady(m, held) && SizeOk(|held| + |data|)
    requires FileIs(a, path, SettledMeta(m, |held|), held)
    ensures FileIs(b, path, SettledMeta(m.(lastChanged := now), |held| + |data|), held + data)
  {
    hide SoundAt, AppendEffect, IsFile, Exists, FileAt, PrintHeader, Visible, AsRead, SeenFile, SeenSize, FileText, MetaOk, Harmless, Settles, Base,
         Recorded, KeptLength, Clean, AppendFits, FileSize;
    var meta, e := SettledMeta(m, |held|), FileAt(a.tree, path);
    SteadySeen(m, held);
    SizeBound(m, |held|);
    SettledOk(m, held);
    KeptWhole(a.disk, e.start, e.count, meta, held);
    MetaDated(meta, now);
    MetaDated(m, now);
    SmallFits(m.(lastChanged := now), |held| + |data|);
    FitsDated(m, |held|, now, |held| + |data|);
    AppendedFile(a, b, total, path, meta, held, data, now);
    assert held[..|held|] == held;
    assert SettledMeta(meta.(lastChanged := now), |held| + |data|) == SettledMeta(m.(lastChanged := now), |held| + |data|) by {
      SettledAgain(m, |held|, now, |held| + |data|);
    }
  }

  lemma MetaDated(m: FileMeta, now: string)
    requires MetaOk(m) && Date(now)
    ensures MetaOk(m.(lastChanged := now))
  {
    hide Clean;
  }

  lemma SettledAgain(m: FileMeta, k: nat, now: string, n: nat)
    ensures SettledMeta(SettledMeta(m, k).(lastChanged := now), n) == SettledMeta(m.(lastChanged := now), n)
  {
    hide Recorded, PrintHeader, Decimal;
    BaseSame(SettledMeta(m, k).(lastChanged := now, dataLength := n), m.(lastChanged := now, dataLength := n));
  }

  lemma SmallFits(m: FileMeta, n: nat)
    requires MetaOk(m) && SizeOk(n)
    ensures AppendFits(m, n)
  {
    hide MetaOk, FileSize;
    SizeBound(m, n);
  }

  lemma FitsDated(m: FileMeta, k: nat, now: string, n: nat)
    ensures AppendFits(SettledMeta(m, k).(lastChanged := now), n) <==> AppendFits(m.(lastChanged := now), n)
  {
    hide Recorded, PrintHeader, Decimal, LaidOut;
    BaseSame(SettledMeta(m, k).(lastChanged := now, dataLength := n), m.(lastChanged := now, dataLength := n));
  }

  lemma BaseSame(a: FileMeta, b: FileMeta)
    requires a.(fileLength := 0) == b.(fileLength := 0)
    ensures Base(a) == Base(b)
  {
  }

  lemma SteadyReads(a: Moment, total: nat, path: string, m: FileMeta, held: string, data: string, now: string)
    requires FileIs(a, path, SettledMeta(m, |held|), held) && Steady(m, held) && PlainRecord(m) && MetaOk(m)
    ensures ReadsSucceed(a, total, path, data, now)
  {
    hide IsFile, Exists, FileAt, PrintHeader, Visible, AsRead, SeenFile, SeenSize, FileText, MetaOk, Harmless, Settles, Base, Recorded, KeptLength;
    var meta, e := SettledMeta(m, |held|), FileAt(a.tree, path);
    SteadySeen(m, held);
    SizeBound(m, |held|);
    SettledOk(m, held);
    KeptWhole(a.disk, e.start, e.count, meta, held);
    PlanOfFile(a, path, meta, held, data, now);
  }

  /** Appending and reading: what comes back is what was kept of the old data and the new data, if and only if that fits
      into 32 bits and the lengths seen in the first block are theirs. */
  method AppendThenRead(d: Drive, path: string, data: string, now: string, ghost m: FileMeta, ghost held: string)
    returns (outcome: Outcome, text: string)
    requires d.Valid() && Date(now) && FileIs(d.Now(), path, m, held) && WithinFile(m, held, FileAt(d.tree, path).count, now)
    modifies d, d.alloc, d.alloc.ext
    ensures AppendEffect(old(d.Now()), d.Now(), d.alloc.total, path, data, now, outcome)
    ensures outcome == Done ==>
              var n := KeptLength(m, held, old(FileAt(d.tree, path).count));
              && d.Valid() && n <= |held|
              && (text == held[..n] + data <==>
                  && AppendFits(Reread(m, held, now), n + |data|)
                  && ReadsWhole(SettledMeta(Reread(m, held, now), n + |data|), held[..n] + data))
  {
    hide SoundAt, AppendEffect, FileIs, Exists, FileAt, WithinFile, KeptLength, Reread, SettledMeta, ReadsWhole, Date, ReadsSucceed, PrintHeader,
         AppendFits;
    FileExists(d.Now(), path, m, held);
    assert |PrintHeader(m)| <= BLOCK_SIZE by { WithinFits(m, held, FileAt(d.tree, path).count, now); }
    ghost var a, n := d.Now(), KeptLength(m, held, FileAt(d.tree, path).count);
    assert ReadsSucceed(a, d.alloc.total, path, data, now) by { PlainReads(a, d.alloc.total, path, m, held, data, now); }
    text := [];
    outcome := d.AppendTo(path, data, now);
    if outcome == Done {
      AppendedFile(a, d.Now(), d.alloc.total, path, m, held, data, now);
      var found;
      found, text := ReadAll(d, path, SettledMeta(Reread(m, held, now), n + |data|), held[..n] + data);
    }
  }

  lemma WithinFits(m: FileMeta, held: string, count: nat, now: string)
    requires WithinFile(m, held, count, now)
    ensures |PrintHeader(m)| <= BLOCK_SIZE
  {
  }

  lemma PlainReads(a: Moment, total: nat, path: string, m: FileMeta, held: string, data: string, now: string)
    requires FileIs(a, path, m, held) && WithinFile(m, held, FileAt(a.tree, path).count, now)
    ensures ReadsSucceed(a, total, path, data, now)
  {
    hide IsFile, Exists, FileAt, PrintHeader, MetaOk, SeenSize, FileText, ReadsSucceed, Reread;
    PlanOfFile(a, path, m, held, data, now);
  }

  /** What was written, followed by the first k pieces. */
  ghost function Sofar(first: string, pieces: seq<string>, k: nat): string
    requires k <= |pieces|
  {
    first + Joined(pieces[..k])
  }

  lemma SofarNext(first: string, pieces: seq<string>, k: nat)
    requires k < |pieces|
    ensures Sofar(first, pieces, k + 1) == Sofar(first, pieces, k) + pieces[k]
  {
    assert pieces[..k + 1][..k] == pieces[..k];
  }

  /** The record with the date of the last change. */
  ghost function Dated(m: FileMeta, clock: seq<string>, k: nat): FileMeta
    requires k < |clock|
  {
    m.(lastChanged := clock[k])
  }

  /** The file stays steady from piece to piece. */
  ghost predicate AllSteady(m: FileMeta, first: string, pieces: seq<string>, clock: seq<string>) {
    |clock| == |pieces| + 1 && forall k :: 0 <= k <= |pieces| ==> Date(clock[k]) && Steady(Dated(m, clock, k), Sofar(first, pieces, k))
  }

  /** The file holds the first k pieces. */
  ghost predicate Reached(a: Moment, path: string, m: FileMeta, first: string, pieces: seq<string>, clock: seq<string>, k: nat) {
    k <= |pieces| && |clock| == |pieces| + 1 &&
    FileIs(a, path, SettledMeta(Dated(m, clock, k), |Sofar(first, pieces, k)|), Sofar(first, pieces, k))
  }

  /** One write and an append for every piece. */
  ghost function Script(path: string, first: string, pieces: seq<string>, filetype: string, fileformat: string): (ops: seq<Op>)
    ensures |ops| == |pieces| + 1 && ops[0] == WriteOp(path, first, [], filetype, fileformat)
    ensures forall k :: 0 <= k < |pieces| ==> ops[k + 1] == AppendOp(path, pieces[k])
  {
    [WriteOp(path, first, [], filetype, fileformat)] + seq(|pieces|, k requires 0 <= k < |pieces| => AppendOp(path, pieces[k]))
  }

  /** Written and then appended to any number of times, up to an operation that is not done: as long as the file stays
      steady, the path gives all pieces in order. */
  method WriteAppendsRead(d: Drive, path: string, first: string, pieces: seq<string>, filetype: string, fileformat: string, clock: seq<string>)
    returns (outcomes: seq<Outcome>, text: string, ghost trace: seq<Moment>)
    requires d.Valid() && |clock| == |pieces| + 1 && FileArgs(path, filetype, fileformat, clock[0]) && |Name(path)| < MAX_NAME
    requires AllSteady(NewMeta(path, filetype, fileformat, clock[0], IsHidden(d.tree, path)), first, pieces, clock)
    modifies d, d.alloc, d.alloc.ext
    ensures d.alloc.total == old(d.alloc.total) && Traced(Script(path, first, pieces, filetype, fileformat), clock, d.alloc.total, trace, outcomes)
    ensures trace[0] == old(d.Now()) && trace[|outcomes|] == d.Now()
    ensures 0 < |outcomes| <= |pieces| + 1 && forall i :: 0 <= i < |outcomes| - 1 ==> outcomes[i] == Done
    ensures |outcomes| <= |pieces| ==> outcomes[|outcomes| - 1] != Done
    ensures |outcomes| == |pieces| + 1 && outcomes[|pieces|] == Done ==> d.Valid() && text == first + Joined(pieces)
  {
    hide SoundAt, FileArgs, AllSteady, NewMeta, Name, IsHidden, PlainRecord, MetaOk, Joined, Drive.Now, Reached, Script, Effect, Traced, SameVolume;
    ghost var m, ops := NewMeta(path, filetype, fileformat, clock[0], IsHidden(d.tree, path)), Script(path, first, pieces, filetype, fileformat);
    text, trace, outcomes := [], [d.Now()], [];
    NothingDone(ops, clock, d.alloc.total, d.Now());
    SteadyStart(path, filetype, fileformat, clock[0], IsHidden(d.tree, path));
    var outcome := WriteFirst(d, path, first, filetype, fileformat, clock, pieces);
    TracedMore(ops, clock, d.alloc.total, trace, outcomes, d.Now(), outcome);
    outcomes, trace := outcomes + [outcome], trace + [d.Now()];
    if outcome != Done { return; }
    assert outcomes == [Done];
    outcomes, trace := AppendAll(d, path, first, pieces, clock, m, ops, trace);
    if outcomes[|outcomes| - 1] == Done { text := ReadPieces(d, path, m, first, pieces, clock); }
  }

  /** The appends, up to one that is not done. */
  method AppendAll(d: Drive, path: string, ghost first: string, pieces: seq<string>, clock: seq<string>, ghost m: FileMeta,
                   ghost ops: seq<Op>, ghost start: seq<Moment>)
    returns (outcomes: seq<Outcome>, ghost trace: seq<Moment>)
    requires d.Valid() && MetaOk(m) && PlainRecord(m) && AllSteady(m, first, pieces, clock)
    requires |ops| == |pieces| + 1 && forall k :: 0 <= k < |pieces| ==> ops[k + 1] == AppendOp(path, pieces[k])
    requires Traced(ops, clock, d.alloc.total, start, [Done]) && |start| == 2 && start[1] == d.Now()
    requires Reached(d.Now(), path, m, first, pieces, clock, 0)
    modifies d, d.alloc, d.alloc.ext
    ensures d.alloc.total == old(d.alloc.total) && Traced(ops, clock, d.alloc.total, trace, outcomes)
    ensures |trace| == |outcomes| + 1 && trace[0] == start[0] && trace[|outcomes|] == d.Now()
    ensures 0 < |outcomes| <= |pieces| + 1 && forall i :: 0 <= i < |outcomes| - 1 ==> outcomes[i] == Done
    ensures |outcomes| <= |pieces| ==> outcomes[|outcomes| - 1] != Done
    ensures outcomes[|outcomes| - 1] == Done ==> d.Valid() && Reached(d.Now(), path, m, first, pieces, clock, |pieces|)
  {
    hide SoundAt, AllSteady, PlainRecord, MetaOk, Drive.Now, Reached, Effect, Traced, SameVolume;
    outcomes, trace := [Done], start;
    var k := 0;
    while k < |pieces|
      invariant 0 <= k <= |pieces| && d.Valid() && (d.alloc.ext == old(d.alloc.ext) || fresh(d.alloc.ext)) && d.alloc.total == old(d.alloc.total)
      invariant Traced(ops, clock, d.alloc.total, trace, outcomes) && |trace| == k + 2
      invariant trace[0] == start[0] && trace[k + 1] == d.Now()
      invariant |outcomes| == k + 1 && forall i :: 0 <= i < |outcomes| ==> outcomes[i] == Done
      invariant Reached(d.Now(), path, m, first, pieces, clock, k)
    {
      var outcome := AppendNext(d, path, pieces, k, clock, m, first);
      TracedMore(ops, clock, d.alloc.total, trace, outcomes, d.Now(), outcome);
      outcomes, trace := outcomes + [outcome], trace + [d.Now()];
      if outcome != Done { return; }
      k := k + 1;
    }
  }

  method ReadPieces(d: Drive, path: string, ghost m: FileMeta, ghost first: string, ghost pieces: seq<string>, ghost clock: seq<string>)
    returns (text: string)
    requires d.Valid() && MetaOk(m) && PlainRecord(m) && AllSteady(m, first, pieces, clock)
    requires Reached(d.Now(), path, m, first, pieces, clock, |pieces|)
    ensures text == first + Joined(pieces)
  {
    hide SoundAt, Steady, SettledMeta, FileIs, MetaOk, PlainRecord, Clean, Dated, Sofar, ReadsWhole, Joined, Drive.Now, AllSteady;
    SteadyAt(m, first, pieces, clock, |pieces|);
    ghost var last, all := Dated(m, clock, |pieces|), Sofar(first, pieces, |pieces|);
    DatedOk(m, clock, |pieces|);
    SteadySeen(last, all);
    var found;
    found, text := ReadAll(d, path, SettledMeta(last, |all|), all);
    AllPieces(first, pieces);
  }

  lemma AllPieces(first: string, pieces: seq<string>)
    ensures Sofar(first, pieces, |pieces|) == first + Joined(pieces)
  {
    assert pieces[..|pieces|] == pieces;
  }

  lemma NextDate(m: FileMeta, clock: seq<string>, k: nat)
    requires k + 1 < |clock|
    ensures Dated(m, clock, k).(lastChanged := clock[k + 1]) == Dated(m, clock, k + 1)
  {
  }

  method WriteFirst(d: Drive, path: string, first: string, filetype: string, fileformat: string, clock: seq<string>, ghost pieces: seq<string>)
    returns (outcome: Outcome)
    requires d.Valid() && |clock| == |pieces| + 1 && FileArgs(path, filetype, fileformat, clock[0]) && |Name(path)| < MAX_NAME
    requires AllSteady(NewMeta(path, filetype, fileformat, clock[0], IsHidden(d.tree, path)), first, pieces, clock)
    modifies d, d.alloc, d.alloc.ext
    ensures d.alloc.Valid() && d.alloc.total == old(d.alloc.total) && (d.alloc.ext == old(d.alloc.ext) || fresh(d.alloc.ext))
    ensures outcome != Lost ==> d.Valid()
    ensures Effect(WriteOp(path, first, [], filetype, fileformat), clock[0], d.alloc.total, old(d.Now()), d.Now(), outcome)
    ensures SameVolume(old(d.Now()), d.Now(), clock[0])
    ensures outcome == Done ==>
              d.Valid() && Reached(d.Now(), path, NewMeta(path, filetype, fileformat, clock[0], old(IsHidden(d.tree, path))), first, pieces, clock, 0)
  {
    hide SoundAt, WriteEffect, FileArgs, Steady, NewMeta, SettledMeta, Name, IsHidden, FileIs, Sofar, Dated, Date, Recounted;
    ghost var a := d.Now();
    NoPieces(first, pieces);
    FirstDate(path, filetype, fileformat, clock, IsHidden(d.tree, path));
    SteadySize(NewMeta(path, filetype, fileformat, clock[0], IsHidden(d.tree, path)), first);
    outcome := d.WriteFile(path, first, [], filetype, fileformat, clock[0]);
    assert first + [] == first;
    if outcome == Done { WrittenFound(a, d.Now(), d.alloc.total, path, filetype, fileformat, clock[0], first); }
  }

  lemma SteadyAt(m: FileMeta, first: string, pieces: seq<string>, clock: seq<string>, k: nat)
    requires AllSteady(m, first, pieces, clock) && k <= |pieces|
    ensures |clock| == |pieces| + 1 && Date(clock[k]) && Steady(Dated(m, clock, k), Sofar(first, pieces, k))
  {
    hide Date, Steady, Dated, Sofar;
  }

  method AppendNext(d: Drive, path: string, pieces: seq<string>, k: nat, clock: seq<string>, ghost m: FileMeta, ghost first: string)
    returns (outcome: Outcome)
    requires d.Valid() && k < |pieces| && MetaOk(m) && PlainRecord(m) && AllSteady(m, first, pieces, clock)
    requires Reached(d.Now(), path, m, first, pieces, clock, k)
    modifies d, d.alloc, d.alloc.ext
    ensures d.alloc.Valid() && d.alloc.total == old(d.alloc.total) && (d.alloc.ext == old(d.alloc.ext) || fresh(d.alloc.ext))
    ensures outcome != Lost ==> d.Valid()
    ensures |clock| == |pieces| + 1 && Effect(AppendOp(path, pieces[k]), clock[k + 1], d.alloc.total, old(d.Now()), d.Now(), outcome)
    ensures SameVolume(old(d.Now()), d.Now(), clock[k + 1])
    ensures outcome == Done ==> d.Valid() && Reached(d.Now(), path, m, first, pieces, clock, k + 1)
  {
    hide SoundAt, AppendEffect, Steady, SettledMeta, FileIs, MetaOk, PlainRecord, Date, ReadsSucceed, Sofar, Dated, AllSteady, Recounted;
    ghost var a, held := d.Now(), Sofar(first, pieces, k);
    SteadyAt(m, first, pieces, clock, k);
    SteadyAt(m, first, pieces, clock, k + 1);
    DatedOk(m, clock, k);
    SofarNext(first, pieces, k);
    NextDate(m, clock, k);
    SteadySize(Dated(m, clock, k + 1), Sofar(first, pieces, k + 1));
    SteadyReads(a, d.alloc.total, path, Dated(m, clock, k), held, pieces[k], clock[k + 1]);
    outcome := d.AppendTo(path, pieces[k], clock[k + 1]);
    if outcome == Done { SteadyAppend(a, d.Now(), d.alloc.total, path, Dated(m, clock, k), held, pieces[k], clock[k + 1]); }
  }

  lemma SteadyStart(path: string, filetype: string, fileformat: string, now: string, hidden: bool)
    requires FileArgs(path, filetype, fileformat, now)
    ensures var m := NewMeta(path, filetype, fileformat, now, hidden); MetaOk(m) && PlainRecord(m)
  {
    hide FileArgs, MetaOk, Clean;
    NewMetaOk(path, filetype, fileformat, now, hidden);
  }

  lemma SteadySize(m: FileMeta, data: string)
    requires Steady(m, data)
    ensures SizeOk(|data|)
  {
  }

  lemma NoPieces(first: string, pieces: seq<string>)
    ensures Sofar(first, pieces, 0) == first
  {
    assert pieces[..0] == [];
    assert first + "" == first;
  }

  lemma FirstDate(path: string, filetype: string, fileformat: string, clock: seq<string>, hidden: bool)
    requires clock != []
    ensures var m := NewMeta(path, filetype, fileformat, clock[0], hidden); Dated(m, clock, 0) == m
  {
  }

  lemma DatedOk(m: FileMeta, clock: seq<string>, k: nat)
    requires MetaOk(m) && PlainRecord(m) && k < |clock| && Date(clock[k])
    ensures MetaOk(Dated(m, clock, k)) && PlainRecord(Dated(m, clock, k))
    ensures forall now: string :: Dated(m, clock, k).(lastChanged := now) == m.(lastChanged := now)
  {
    hide Clean;
  }
}
