/** What creating and writing a file leaves on the disk, field by field: its entry, and the header in the first block
    of its run. */
module Headers {
  import opened Options
  import opened Text
  import opened FileHeader
  import opened FileLength
  import opened FolderDesc
  import opened Layout
  import opened Image
  import opened Files
  import opened Directory
  import opened Paths
  import opened Volume
  import opened Effects

  /** The header, up to its data marker, has these fields. */
  ghost predicate HeaderSays(disk: Disk, start: nat, path: string, filetype: string, fileformat: string, now: string, hidden: bool, n: nat) {
    start in disk &&
    var text := CString(disk[start]);
    OffsetOf(text) <= |text| &&
    var r := ParseHeader(text[..OffsetOf(text)]);
    && r.Some?
    && r.value.filetype == filetype && r.value.fileformat == fileformat
    && r.value.filename == Name(path) && r.value.parentFolder == Parent(path)
    && r.value.created == now && r.value.lastChanged == now
    && r.value.hidden == hidden && r.value.dataLength == n
    && !r.value.runnable && r.value.entrypoint == 0 && r.value.runWith == []
  }

  /** The entry is that of a file with the beginning of this name. */
  ghost predicate EntrySays(e: Entry, path: string, hidden: bool) {
    var name := Name(path);
    !e.isDir && e.hidden == hidden && e.name == name[..if |name| < 64 then |name| else 63]
  }

  lemma NothingHarmless()
    ensures Harmless([])
  {
  }

  /** The header of a file parses to its record when nothing follows. */
  lemma HeaderOnDisk(disk: Disk, start: nat, count: nat, m: FileMeta, data: string)
    requires IsFile(disk, start, count, m, data)
    ensures start in disk && OffsetOf(CString(disk[start])) <= |CString(disk[start])|
    ensures ParseHeader(CString(disk[start])[..OffsetOf(CString(disk[start]))]) == Some(Printed(m))
  {
    hide PrintHeader, ParseHeader, Find, Visible, MetaOk, AsRead, BlockOf, CString, FileText, Readable, Harmless, Printed;
    FileReadable(disk, start, count, m, data);
    FirstBlock(m, data);
    FindData(m, Visible(m, data));
    var text := CString(disk[start]);
    assert text[..|PrintHeader(m)|] == PrintHeader(m) == PrintHeader(m) + [];
    HeaderRead(m, []);
    NothingHarmless();
    HarmlessKeeps(m, []);
  }

  lemma RecordSays(disk: Disk, start: nat, count: nat, path: string, filetype: string, fileformat: string, now: string, hidden: bool, data: string)
    requires IsFile(disk, start, count, SettledMeta(NewMeta(path, filetype, fileformat, now, hidden), |data|), data)
    ensures HeaderSays(disk, start, path, filetype, fileformat, now, hidden, |data|)
  {
    hide ParseHeader, Find, CString, OffsetOf, Recorded, Base, Name, Parent, IsFile;
    HeaderOnDisk(disk, start, count, SettledMeta(NewMeta(path, filetype, fileformat, now, hidden), |data|), data);
  }

  lemma NewEntrySays(path: string, start: nat, count: nat)
    ensures EntrySays(NewEntry(path, start, count), path, false)
  {
    hide Name;
  }

  /** A new file: the last entry of its folder, not hidden, with its fields in the header. */
  lemma MadeSays(a: Moment, b: Moment, total: nat, path: string, filetype: string, fileformat: string, now: string, data: string)
    requires FileMade(a, b, total, path, NewMeta(path, filetype, fileformat, now, false), data)
    ensures Target(a.tree, path).Some?
    ensures var p := Target(a.tree, path).value.0;
            var n := |a.tree.folders[p].entries|;
            && Slot(b.tree, p, n) && EntrySays(EntryAt(b.tree, p, n), path, false)
            && HeaderSays(b.disk, EntryAt(b.tree, p, n).start, path, filetype, fileformat, now, false, |data|)
  {
    hide Target, IsFile, FileBlocks, SettledMeta, NewMeta, NewEntry, FilesKept, FirstFree, AddFile, HeaderSays, EntrySays;
    var p := Target(a.tree, path).value.0;
    var e := EntryAt(b.tree, p, |a.tree.folders[p].entries|);
    NewEntrySays(path, e.start, FileBlocks(NewMeta(path, filetype, fileformat, now, false), |data|));
    RecordSays(b.disk, e.start, e.count, path, filetype, fileformat, now, false, data);
  }

  /** After minimafs_create_file. */
  lemma CreatedSays(a: Moment, b: Moment, total: nat, path: string, filetype: string, fileformat: string, now: string)
    requires CreateEffect(a, b, total, path, filetype, fileformat, now, Done)
    ensures Target(a.tree, path).Some?
    ensures var p := Target(a.tree, path).value.0;
            var n := |a.tree.folders[p].entries|;
            && Slot(b.tree, p, n) && EntrySays(EntryAt(b.tree, p, n), path, false)
            && HeaderSays(b.disk, EntryAt(b.tree, p, n).start, path, filetype, fileformat, now, false, 0)
  {
    hide Target, FileMade, FileBlocks, NewMeta, HasRoom, NoSpace, HeaderSays, EntrySays;
    MadeSays(a, b, total, path, filetype, fileformat, now, []);
  }

  /** After minimafs_write_file_segments: a file that was there keeps its place and whether it is hidden. */
  lemma WrittenSays(a: Moment, b: Moment, total: nat, path: string, filetype: string, fileformat: string, now: string, data: string)
    requires WriteEffect(a, b, total, path, filetype, fileformat, now, data, Done)
    ensures Target(a.tree, path).Some?
    ensures var (p, k) := Target(a.tree, path).value;
            var hidden := k < |a.tree.folders[p].entries| && a.tree.folders[p].entries[k].hidden;
            && Slot(b.tree, p, k)
            && !EntryAt(b.tree, p, k).isDir && EntryAt(b.tree, p, k).hidden == hidden
            && (k < |a.tree.folders[p].entries| ==> EntryAt(b.tree, p, k).name == Name(path))
            && (k == |a.tree.folders[p].entries| ==> EntrySays(EntryAt(b.tree, p, k), path, false))
            && HeaderSays(b.disk, EntryAt(b.tree, p, k).start, path, filetype, fileformat, now, hidden, |data|)
  {
    hide Lead, FileMade, FileBlocks, NewMeta, HasRoom, NoSpace, HeaderSays, SettledMeta, IsFile, KeptOthers, Lands, Name, Parent, FirstNamed;
    if Exists(a.tree, path, false) {
      var hidden := IsHidden(a.tree, path);
      var m := NewMeta(path, filetype, fileformat, now, hidden);
      var e :| Rewritten(a, b, total, path, m, data, Done, e);
      var (p, k) := Target(a.tree, path).value;
      SetSlot(a.tree, p, k, e, p, k);
      RecordSays(b.disk, e.start, e.count, path, filetype, fileformat, now, hidden, data);
    } else {
      MadeSays(a, b, total, path, filetype, fileformat, now, data);
    }
  }
}
