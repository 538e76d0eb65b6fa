/** What each operation does to a volume, as a relation between the moment before and the moment after. */
module Effects {
  import opened Options
  import opened Tags
  import opened Descriptors
  import opened FileHeader
  import opened FileLength
  import opened FolderDesc
  import opened Layout
  import opened Image
  import opened Append
  import opened Files
  import opened Extents
  import opened Directory
  import opened Paths
  import opened Volume
  import opened Edits

  /** Done; refused with nothing changed; or a descriptor no longer fits after blocks were taken. */
  datatype Outcome = Done | Refused | Lost

  /** The state of a drive. */
  datatype Moment = Moment(disk: Disk, storage: StorageDesc, tree: Tree, list: seq<Extent>)

  /** Disk, tree and list are in step, and block 0 says so. */
  ghost predicate SoundAt(a: Moment, total: nat) {
    Sound(a.disk, a.storage, a.tree, total, a.list) && Reported(a.disk, a.storage, total, a.list)
  }

  // ---- paths in a tree ----

  /** The folder that a path leads to. */
  ghost function Lead(t: Tree, path: string): (r: Option<nat>)
    ensures r.Some? ==> r.value in t.folders
  {
    if Ranked(t) && t.root in t.folders then WalkFrom(t, t.root, Components(path)) else None
  }

  /** The folder that the parent of a path leads to, and the first entry of its name there. */
  ghost function Target(t: Tree, path: string): (r: Option<(nat, nat)>)
    ensures r.Some? ==> r.value.0 in t.folders && r.value.1 <= |t.folders[r.value.0].entries|
  {
    var w := Lead(t, Parent(path));
    if w.None? then None else Some((w.value, FirstNamed(t.folders[w.value].entries, Name(path))))
  }

  ghost predicate Exists(t: Tree, path: string, isDir: bool) {
    var r := Target(t, path);
    r.Some? && r.value.1 < |t.folders[r.value.0].entries| && t.folders[r.value.0].entries[r.value.1].isDir == isDir
  }

  /** The entry of the file at a path. */
  ghost function FileAt(t: Tree, path: string): Entry
    requires Exists(t, path, false)
  {
    var (p, k) := Target(t, path).value;
    t.folders[p].entries[k]
  }

  ghost predicate IsHidden(t: Tree, path: string) { Exists(t, path, false) && FileAt(t, path).hidden }

  /** The entry whose run is written over, if there is one. */
  ghost function OldEntry(t: Tree, path: string): Entry {
    if Exists(t, path, false) then FileAt(t, path) else NOTHING
  }

  predicate IsRoot(path: string) { path == "" || path == "/" }

  /** An empty folder, named by the first entry of its name. */
  ghost predicate Removable(t: Tree, path: string) {
    var b := Lead(t, path);
    !IsRoot(path) && b.Some? && t.folders[b.value].entries == [] && Exists(t, path, true)
  }

  // ---- arguments ----

  /** A date from the clock. */
  ghost predicate Date(now: string) { Clean(now) && |now| < 32 }

  /** No character that a descriptor or a header uses as a delimiter. */
  ghost predicate PathOk(path: string) {
    |path| < MAX_PATH && Clean(path) && forall i :: 0 <= i < |path| ==> path[i] != ','
  }

  /** The record that a new file starts with. */
  function NewMeta(path: string, filetype: string, fileformat: string, now: string, hidden: bool): FileMeta {
    FileMeta(filetype, fileformat, 0, 0, Name(path), now, now, Parent(path), false, 0, "", hidden)
  }

  ghost predicate FileArgs(path: string, filetype: string, fileformat: string, now: string) {
    PathOk(path) && |Name(path)| < 256 && BareOk(filetype, 64) && BareOk(fileformat, 16) && Date(now)
  }

  // ---- space ----

  /** No run of that many blocks is free. */
  ghost predicate NoSpace(list: seq<Extent>, total: nat, count: nat) {
    forall b :: 1 <= b ==> !RunFree(list, total, b, count)
  }

  /** The first free run of that many blocks. */
  ghost predicate FirstFree(list: seq<Extent>, total: nat, start: nat, count: nat) {
    1 <= start && RunFree(list, total, start, count) && forall b :: 1 <= b < start ==> !RunFree(list, total, b, count)
  }

  /** The blocks that a file with this record and that much data takes. */
  ghost function FileBlocks(m: FileMeta, n: nat): nat { BlockCount(FileSize(m, n)) }

  /** Where the run of e goes: into the old run if that is long enough, else to the first free one. */
  ghost predicate Lands(list: seq<Extent>, total: nat, o: Entry, e: Entry) {
    if o.start != 0 && o.count >= e.count then e.start == o.start else FirstFree(list, total, e.start, e.count)
  }

  /** The list exchanges the run of o for that of e. */
  ghost predicate Exchanged(before: seq<Extent>, after: seq<Extent>, o: Entry, e: Entry) {
    forall x :: Covers(after, x) <==> (Covers(before, x) && !Has(o, x)) || Has(e, x)
  }

  // ---- removing ----

  /** The entry is gone; every other file keeps its blocks. */
  ghost predicate FileRemoved(a: Moment, b: Moment, path: string) {
    Target(a.tree, path).Some? &&
    var (p, k) := Target(a.tree, path).value;
    Slot(a.tree, p, k) && b.tree == Drop(a.tree, p, k) && FilesKept(a.tree, a.disk, b.disk, p, k)
  }

  /** minimafs_delete_file. */
  ghost predicate DeleteEffect(a: Moment, b: Moment, path: string, outcome: Outcome) {
    if Exists(a.tree, path, false) then outcome == Done && FileRemoved(a, b, path) else outcome == Refused && b == a
  }

  /** The entry and the folder that it named are gone. */
  ghost predicate FolderRemoved(a: Moment, b: Moment, path: string) {
    Target(a.tree, path).Some? &&
    var (p, k) := Target(a.tree, path).value;
    Slot(a.tree, p, k) && b.tree == DropDir(a.tree, p, k) && FilesKept(a.tree, a.disk, b.disk, p, k)
  }

  /** minimafs_rmdir. */
  ghost predicate RmdirEffect(a: Moment, b: Moment, path: string, outcome: Outcome) {
    if Removable(a.tree, path) then outcome == Done && FolderRemoved(a, b, path) else outcome == Refused && b == a
  }

  // ---- a new folder ----

  /** The parent has a new last entry, which names an empty folder in the first free block. */
  ghost predicate FolderMade(a: Moment, b: Moment, total: nat, path: string) {
    Target(a.tree, path).Some? &&
    var (p, k) := Target(a.tree, path).value;
    && p in a.tree.rank && k == |a.tree.folders[p].entries| && Slot(b.tree, p, k)
    && var e := EntryAt(b.tree, p, k);
    && e == Entry(Name(path), true, e.start, 1, false) && FirstFree(a.list, total, e.start, 1)
    && b.tree == AddDir(a.tree, p, e, path) && FilesKept(a.tree, a.disk, b.disk, p, k)
  }

  ghost predicate MkdirRefused(a: Moment, total: nat, path: string) {
    || Name(path) == [] || Target(a.tree, path) == None || Exists(a.tree, path, false)
    || NoSpace(a.list, total, 1) || !HasRoom(a.tree.folders[Target(a.tree, path).value.0])
  }

  /** minimafs_mkdir. */
  ghost predicate MkdirEffect(a: Moment, b: Moment, total: nat, path: string, outcome: Outcome) {
    if IsRoot(path) || (Name(path) != [] && Exists(a.tree, path, true)) then outcome == Done && b == a
    else if MkdirRefused(a, total, path) then outcome == Refused && b == a
    else outcome == Done && FolderMade(a, b, total, path)
  }

  // ---- when the folder cannot be written any more ----

  /** The disk spells out the tree: what mounting needs. */
  ghost predicate Mountable(disk: Disk, t: Tree, total: nat) {
    WellFormed(t, total) && Holds(disk, t) && Present(disk, t) && Described(disk, t.root, total)
  }

  /** The disk still spells out the old tree, while the list has exchanged the run of o for that of e: it no longer
      marks the blocks of that tree. */
  ghost predicate Stranded(a: Moment, b: Moment, total: nat, o: Entry, e: Entry) {
    && b.tree == a.tree && Mountable(b.disk, b.tree, total)
    && Exchanged(a.list, b.list, o, e) && !Tracks(b.list, b.tree)
  }

  // ---- files ----

  /** The parent has a new last entry, whose run is the first free one and holds a file with the data and the record
      settled from m. */
  ghost predicate FileMade(a: Moment, b: Moment, total: nat, path: string, m: FileMeta, data: string) {
    Target(a.tree, path).Some? &&
    var p := Target(a.tree, path).value.0;
    var n := |a.tree.folders[p].entries|;
    && Slot(b.tree, p, n)
    && var e := EntryAt(b.tree, p, n);
    && e == NewEntry(path, e.start, FileBlocks(m, |data|)) && FirstFree(a.list, total, e.start, e.count)
    && b.tree == AddFile(a.tree, p, e) && FilesKept(a.tree, a.disk, b.disk, p, n)
    && IsFile(b.disk, e.start, e.count, SettledMeta(m, |data|), data)
  }

  /** The entry of a new file: its name is cut to fit. */
  function NewEntry(path: string, start: nat, count: nat): Entry {
    Entry(Truncate(Name(path), MAX_NAME), false, start, count, false)
  }

  /** The file was written, but the folder has no room for its entry. */
  ghost predicate FileLost(a: Moment, b: Moment, total: nat, path: string, m: FileMeta, data: string) {
    exists start :: FirstFree(a.list, total, start, FileBlocks(m, |data|)) &&
      Stranded(a, b, total, NOTHING, NewEntry(path, start, FileBlocks(m, |data|)))
  }

  /** minimafs_create_file. */
  ghost predicate CreateEffect(a: Moment, b: Moment, total: nat, path: string, filetype: string, fileformat: string, now: string,
                               outcome: Outcome) {
    var m := NewMeta(path, filetype, fileformat, now, false);
    if || Target(a.tree, path) == None || Exists(a.tree, path, false)
       || |a.tree.folders[Target(a.tree, path).value.0].entries| >= MAX_ENTRIES || NoSpace(a.list, total, FileBlocks(m, 0))
    then outcome == Refused && b == a
    else if HasRoom(a.tree.folders[Target(a.tree, path).value.0]) then outcome == Done && FileMade(a, b, total, path, m, [])
    else outcome == Lost && FileLost(a, b, total, path, m, [])
  }

  /** The entry has a run of the length needed, where it lands, which holds a file with the data and the record
      settled from m. */
  ghost predicate FileChanged(a: Moment, b: Moment, total: nat, path: string, m: FileMeta, data: string, e: Entry) {
    && b.tree == SetEntry(a.tree, path, e) && KeptOthers(a, b, path)
    && IsFile(b.disk, e.start, e.count, SettledMeta(m, |data|), data)
  }

  /** The tree with another entry for the file at the path. */
  ghost function SetEntry(t: Tree, path: string, e: Entry): Tree {
    if Exists(t, path, false) then
      var (p, k) := Target(t, path).value;
      SetFile(t, p, k, e)
    else t
  }

  /** Every file but that at the path keeps its blocks. */
  ghost predicate KeptOthers(a: Moment, b: Moment, path: string) {
    Exists(a.tree, path, false) &&
    var (p, k) := Target(a.tree, path).value;
    FilesKept(a.tree, a.disk, b.disk, p, k)
  }

  /** The folder's text with that entry is within the writer's limits. */
  ghost predicate EntryFits(t: Tree, path: string, e: Entry) {
    Exists(t, path, false) &&
    var (p, k) := Target(t, path).value;
    FolderFits(Changed(t.folders[p], k, e))
  }

  /** Writing over a file: its entry becomes e. */
  ghost predicate Rewritten(a: Moment, b: Moment, total: nat, path: string, m: FileMeta, data: string, outcome: Outcome, e: Entry) {
    var o := OldEntry(a.tree, path);
    && e == o.(start := e.start, count := FileBlocks(m, |data|)) && Lands(a.list, total, o, e)
    && if EntryFits(a.tree, path, e) then outcome == Done && FileChanged(a, b, total, path, m, data, e)
       else outcome == Lost && Stranded(a, b, total, o, e)
  }

  ghost predicate WriteRefused(a: Moment, total: nat, path: string, m: FileMeta, n: nat) {
    || Target(a.tree, path) == None || Exists(a.tree, path, true)
    || (NoSpace(a.list, total, FileBlocks(m, n)) && OldEntry(a.tree, path).count < FileBlocks(m, n))
  }

  /** minimafs_write_file_segments. */
  ghost predicate WriteEffect(a: Moment, b: Moment, total: nat, path: string, filetype: string, fileformat: string, now: string,
                              data: string, outcome: Outcome) {
    var m := NewMeta(path, filetype, fileformat, now, IsHidden(a.tree, path));
    if WriteRefused(a, total, path, m, |data|) then outcome == Refused && b == a
    else if Exists(a.tree, path, false) then exists e :: Rewritten(a, b, total, path, m, data, outcome, e)
    else if HasRoom(a.tree.folders[Target(a.tree, path).value.0]) then outcome == Done && FileMade(a, b, total, path, m, data)
    else outcome == Lost && FileLost(a, b, total, path, m, data)
  }

  // ---- appending ----

  /** What the append reads at the start of the file's run. */
  ghost function FirstText(a: Moment, o: Entry): string {
    if o.start in a.disk then CString(a.disk[o.start]) else ""
  }

  ghost function PlanAt(a: Moment, path: string, data: string, now: string): Plan {
    var o := OldEntry(a.tree, path);
    Planned(FirstText(a, o), o.count, |data|, now)
  }

  /** How much of the old data goes into the new run: all of it, unless the size wrapped. */
  function PlanReach(plan: Plan): (n: nat)
    ensures n <= plan.oldLen
  {
    Reach(plan.header, plan.oldLen, plan.count)
  }

  ghost predicate AppendRefused(a: Moment, total: nat, path: string, data: string, now: string) {
    || data == [] || !Exists(a.tree, path, false) || !Recognised(FirstText(a, OldEntry(a.tree, path)))
    || PlanAt(a, path, data, now).count == 0 || NoSpace(a.list, total, PlanAt(a, path, data, now).count)
  }

  /** The blocks that the append reads, in the file's run or beyond it, can be read. */
  ghost predicate ReadsSucceed(a: Moment, total: nat, path: string, data: string, now: string) {
    !AppendRefused(a, total, path, data, now) ==>
      var plan := PlanAt(a, path, data, now);
      Layout.Readable(a.disk, FileAt(a.tree, path).start, BlockCount(plan.offset + PlanReach(plan)))
  }

  /** The new run holds its blocks of the new header, what was copied, the new data and the footer. What was copied are
      the bytes of the old run if the data lies in it as the old header has it. */
  ghost predicate Copied(before: Disk, after: Disk, o: Entry, e: Entry, plan: Plan, data: string, copied: string) {
    && |copied| == plan.oldLen && e.count == plan.count
    && RunHolds(after, e.start, e.count, plan.header + copied + data + FOOTER)
    && (plan.offset + PlanReach(plan) <= o.count * BLOCK_SIZE ==> CopiedFrom(before, o.start, o.count, plan, copied))
  }

  /** The copy begins with the bytes of a run. */
  ghost predicate CopiedFrom(disk: Disk, start: nat, count: nat, plan: Plan, copied: string) {
    var reach := PlanReach(plan);
    && Layout.Readable(disk, start, count) && plan.offset + reach <= count * BLOCK_SIZE && reach <= |copied|
    && copied[..reach] == Bytes(disk, start, count, plan.offset, reach)
  }

  ghost predicate FileAppended(a: Moment, b: Moment, path: string, data: string, now: string, e: Entry) {
    && b.tree == SetEntry(a.tree, path, e) && KeptOthers(a, b, path)
    && exists copied :: Copied(a.disk, b.disk, OldEntry(a.tree, path), e, PlanAt(a, path, data, now), data, copied)
  }

  /** Appending to a file: its entry becomes e. */
  ghost predicate Appended(a: Moment, b: Moment, total: nat, path: string, data: string, now: string, outcome: Outcome, e: Entry) {
    var o := OldEntry(a.tree, path);
    && e == o.(start := e.start, count := PlanAt(a, path, data, now).count) && FirstFree(a.list, total, e.start, e.count)
    && if EntryFits(a.tree, path, e) then outcome == Done && FileAppended(a, b, path, data, now, e)
       else outcome == Lost && Stranded(a, b, total, o, e)
  }

  /** minimafs_append_file. */
  ghost predicate AppendEffect(a: Moment, b: Moment, total: nat, path: string, data: string, now: string, outcome: Outcome) {
    if AppendRefused(a, total, path, data, now) then outcome == Refused && b == a
    else exists e :: Appended(a, b, total, path, data, now, outcome, e)
  }
}
