/** A file followed by its path through operations on other entries, which leave it alone. */
module Sessions {
  import opened Options
  import opened FileHeader
  import opened FolderDesc
  import opened Layout
  import opened Files
  import opened Directory
  import opened Paths
  import opened Volume
  import opened Edits
  import opened Effects
  import opened Moves
  import opened Runs

  // ---- folders are found as before ----

  /** A subfolder that was found, other than b, is still found. */
  ghost predicate SubStays(a: seq<Entry>, c: seq<Entry>, name: string, b: nat) {
    var i, j := FirstFolder(a, name), FirstFolder(c, name);
    i < |a| && a[i].start != b ==> j < |c| && c[j].start == a[i].start
  }

  /** Every folder but the empty folder b is still there and leads where it led. Block 0 is no folder. */
  ghost predicate Onward(t: Tree, u: Tree, b: nat) {
    && t.root == u.root != b && (b in t.folders ==> t.folders[b].entries == [])
    && (forall f :: f in t.folders && f != b ==> f in u.folders)
    && (forall f, name :: f in t.folders && f != b && f in u.folders ==> SubStays(t.folders[f].entries, u.folders[f].entries, name, b))
  }

  lemma {:induction false} WalkOn(t: Tree, u: Tree, b: nat, f: nat, names: seq<string>, x: nat)
    requires Ranked(t) && Ranked(u) && Onward(t, u, b) && f in t.folders && f in u.folders && f != b
    requires WalkFrom(t, f, names) == Some(x) && x != b
    ensures x in u.folders && WalkFrom(u, f, names) == Some(x)
    decreases |names|
  {
    hide Ranked;
    if names != [] {
      var a, c := t.folders[f].entries, u.folders[f].entries;
      assert SubStays(a, c, names[0], b);
      var i, j := FirstFolder(a, names[0]), FirstFolder(c, names[0]);
      Enter(t, f, i);
      assert a[i].start != b;
      Enter(u, f, j);
      WalkOn(t, u, b, a[i].start, names[1..], x);
    }
  }

  lemma Enter(t: Tree, f: nat, i: int)
    requires Ranked(t) && Slot(t, f, i) && EntryAt(t, f, i).isDir
    ensures EntryAt(t, f, i).start in t.folders
  {
    assert Below(t, f, EntryAt(t, f, i));
  }

  lemma LeadOn(t: Tree, u: Tree, total: nat, b: nat, path: string)
    requires WellFormed(t, total) && WellFormed(u, total) && Onward(t, u, b)
    requires Lead(t, path).Some? && Lead(t, path).value != b
    ensures Lead(u, path) == Lead(t, path)
  {
    hide FoldersOk, SlotsOk, Apart, WalkFrom, SubStays, Ranked;
    WellRanked(t, total);
    WellRanked(u, total);
    WalkOn(t, u, b, t.root, Components(path), Lead(t, path).value);
  }

  lemma AddStays(a: seq<Entry>, e: Entry, name: string)
    ensures SubStays(a, a + [e], name, 0)
    ensures FirstNamed(a, name) < |a| ==> FirstNamed(a + [e], name) == FirstNamed(a, name)
  {
    var i, k := FirstFolder(a, name), FirstNamed(a, name);
    if i < |a| { FolderIs(a + [e], name, i); }
    if k < |a| { NamedIs(a + [e], name, k); }
  }

  lemma SetStays(a: seq<Entry>, k: nat, e: Entry, name: string)
    requires k < |a| && !a[k].isDir && !e.isDir && e.name == a[k].name
    ensures SubStays(a, a[k := e], name, 0)
    ensures FirstNamed(a[k := e], name) == FirstNamed(a, name)
  {
    FolderIs(a[k := e], name, FirstFolder(a, name));
    NamedIs(a[k := e], name, FirstNamed(a, name));
  }

  ghost function Without(a: seq<Entry>, k: nat): seq<Entry>
    requires k < |a|
  {
    a[..k] + a[k + 1..]
  }

  lemma WithoutAt(a: seq<Entry>, k: nat, i: nat)
    requires k < |a| && i < |a| - 1
    ensures Without(a, k)[i] == a[if i < k then i else i + 1]
  {
  }

  lemma DropFolder(a: seq<Entry>, k: nat, name: string, b: nat)
    requires k < |a| && (a[k].isDir ==> a[k].start == b)
    ensures SubStays(a, Without(a, k), name, b)
  {
    var c, j := Without(a, k), FirstFolder(a, name);
    if j < |a| && j != k {
      hide Without;
      var n := if j < k then j else j - 1;
      forall i | 0 <= i < |a| - 1 ensures c[i] == a[if i < k then i else i + 1] { WithoutAt(a, k, i); }
      FolderIs(c, name, n);
    }
  }

  /** The first entry of a name is found when another entry is gone. */
  lemma DropNamed(a: seq<Entry>, k: nat, name: string)
    requires k < |a|
    ensures var c, i := Without(a, k), FirstNamed(a, name);
            i < |a| && i != k ==> FirstNamed(c, name) < |c| && c[FirstNamed(c, name)] == a[i]
  {
    var c, i := Without(a, k), FirstNamed(a, name);
    if i < |a| && i != k {
      assert |c| == |a| - 1;
      hide Without;
      var n := if i < k then i else i - 1;
      forall q | 0 <= q < |a| - 1 ensures c[q] == a[if q < k then q else q + 1] { WithoutAt(a, k, q); }
      NamedIs(c, name, n);
    }
  }

  lemma SelfStays(a: seq<Entry>, name: string, b: nat)
    ensures SubStays(a, a, name, b)
  {
  }

  // ---- files are found as before ----

  /** The file at the path is still there. */
  ghost predicate Stays(t: Tree, u: Tree, path: string) {
    Exists(t, path, false) && Exists(u, path, false) && FileAt(u, path) == FileAt(t, path)
  }

  lemma StaysIf(t: Tree, u: Tree, total: nat, b: nat, path: string)
    requires WellFormed(t, total) && WellFormed(u, total) && Onward(t, u, b) && Exists(t, path, false)
    requires var (p, i) := Target(t, path).value;
             p != b ==> p in u.folders && var c := u.folders[p].entries;
                        FirstNamed(c, Name(path)) < |c| && c[FirstNamed(c, Name(path))] == t.folders[p].entries[i]
    ensures Stays(t, u, path)
  {
    hide WellFormed, Lead, Name, Onward;
    assert Target(t, path).value.0 != b by { hide FirstNamed; OnwardEmpty(t, u, b); }
    LeadOn(t, u, total, b, Parent(path));
  }

  lemma OnwardEmpty(t: Tree, u: Tree, b: nat)
    requires Onward(t, u, b)
    ensures b in t.folders ==> t.folders[b].entries == []
  {
  }

  lemma AddFileStays(t: Tree, total: nat, p: nat, e: Entry, path: string)
    requires WellFormed(t, total) && p in t.folders && WellFormed(AddFile(t, p, e), total) && Exists(t, path, false)
    ensures Stays(t, AddFile(t, p, e), path)
  {
    hide SubStays, Name, SlotsOk, Apart, Lead;
    var u := AddFile(t, p, e);
    FoldersPositive(t, total);
    forall f, name | f in t.folders && f != 0 && f in u.folders ensures SubStays(t.folders[f].entries, u.folders[f].entries, name, 0) {
      if f == p { AddStays(t.folders[f].entries, e, name); } else { SelfStays(t.folders[f].entries, name, 0); }
    }
    AddStays(t.folders[p].entries, e, Name(path));
    StaysIf(t, u, total, 0, path);
  }

  lemma FoldersPositive(t: Tree, total: nat)
    requires WellFormed(t, total)
    ensures 0 !in t.folders
  {
    hide FoldersOk, SlotsOk, Apart;
    if 0 in t.folders { FolderIsOwned(t, total, 0); }
  }

  lemma AddDirStays(t: Tree, total: nat, p: nat, e: Entry, dir: string, path: string)
    requires WellFormed(t, total) && p in t.folders && p in t.rank && e.start !in t.folders
    requires WellFormed(AddDir(t, p, e, dir), total) && Exists(t, path, false)
    ensures Stays(t, AddDir(t, p, e, dir), path)
  {
    hide SubStays, Name, SlotsOk, Apart, Lead;
    var u := AddDir(t, p, e, dir);
    FoldersPositive(t, total);
    forall f, name | f in t.folders && f != 0 && f in u.folders ensures SubStays(t.folders[f].entries, u.folders[f].entries, name, 0) {
      if f == p { AddStays(t.folders[f].entries, e, name); } else { SelfStays(t.folders[f].entries, name, 0); }
    }
    AddStays(t.folders[p].entries, e, Name(path));
    StaysIf(t, u, total, 0, path);
  }

  lemma SetFileOnward(t: Tree, total: nat, p: nat, k: nat, e: Entry)
    requires WellFormed(t, total) && Slot(t, p, k) && !EntryAt(t, p, k).isDir && !e.isDir && e.name == EntryAt(t, p, k).name
    ensures Onward(t, SetFile(t, p, k, e), 0)
  {
    hide SubStays, SlotsOk, Apart;
    var u := SetFile(t, p, k, e);
    FoldersPositive(t, total);
    forall f, name | f in t.folders && f != 0 && f in u.folders ensures SubStays(t.folders[f].entries, u.folders[f].entries, name, 0) {
      if f == p { SetStays(t.folders[f].entries, k, e, name); } else { SelfStays(t.folders[f].entries, name, 0); }
    }
  }

  lemma SetFileStays(t: Tree, total: nat, p: nat, k: nat, e: Entry, path: string)
    requires WellFormed(t, total) && Slot(t, p, k) && !EntryAt(t, p, k).isDir && !e.isDir && e.name == EntryAt(t, p, k).name
    requires WellFormed(SetFile(t, p, k, e), total) && Exists(t, path, false) && Target(t, path) != Some((p, k))
    ensures Stays(t, SetFile(t, p, k, e), path)
  {
    hide SubStays, Name, WellFormed, Lead, Onward;
    SetFileOnward(t, total, p, k, e);
    SetStays(t.folders[p].entries, k, e, Name(path));
    StaysIf(t, SetFile(t, p, k, e), total, 0, path);
  }

  /** The file whose run was exchanged is found where it was. */
  lemma SetFileFound(t: Tree, total: nat, p: nat, k: nat, e: Entry, path: string)
    requires WellFormed(t, total) && Slot(t, p, k) && !EntryAt(t, p, k).isDir && !e.isDir && e.name == EntryAt(t, p, k).name
    requires WellFormed(SetFile(t, p, k, e), total) && Target(t, path) == Some((p, k))
    ensures Target(SetFile(t, p, k, e), path) == Some((p, k))
  {
    hide SubStays, Name, WellFormed, Lead, Onward;
    SetFileOnward(t, total, p, k, e);
    SetStays(t.folders[p].entries, k, e, Name(path));
    assert p != 0 by { FoldersPositive(t, total); }
    LeadOn(t, SetFile(t, p, k, e), total, 0, Parent(path));
  }

  lemma DropStaysAt(t: Tree, total: nat, p: nat, k: nat, path: string)
    requires WellFormed(t, total) && Slot(t, p, k) && !EntryAt(t, p, k).isDir && WellFormed(Drop(t, p, k), total)
    requires Exists(t, path, false) && Target(t, path) != Some((p, k))
    ensures Stays(t, Drop(t, p, k), path)
  {
    hide SubStays, Name, SlotsOk, Apart, Lead;
    var u := Drop(t, p, k);
    FoldersPositive(t, total);
    forall f, name | f in t.folders && f != 0 && f in u.folders ensures SubStays(t.folders[f].entries, u.folders[f].entries, name, 0) {
      if f == p { DropFolder(t.folders[f].entries, k, name, 0); } else { SelfStays(t.folders[f].entries, name, 0); }
    }
    DropNamed(t.folders[p].entries, k, Name(path));
    StaysIf(t, u, total, 0, path);
  }

  lemma DropDirOnward(t: Tree, total: nat, p: nat, k: nat)
    requires WellFormed(t, total) && Slot(t, p, k) && EntryAt(t, p, k).isDir
    requires var b := EntryAt(t, p, k).start; b in t.folders && t.folders[b].entries == []
    ensures Onward(t, DropDir(t, p, k), EntryAt(t, p, k).start)
  {
    hide SubStays, WellFormed;
    FolderEntry(t, total, p, k);
    var u, b := DropDir(t, p, k), EntryAt(t, p, k).start;
    forall f, name | f in t.folders && f != b && f in u.folders ensures SubStays(t.folders[f].entries, u.folders[f].entries, name, b) {
      if f == p { DropFolder(t.folders[f].entries, k, name, b); } else { SelfStays(t.folders[f].entries, name, b); }
    }
  }

  lemma DropDirStays(t: Tree, total: nat, p: nat, k: nat, path: string)
    requires WellFormed(t, total) && Slot(t, p, k) && EntryAt(t, p, k).isDir && WellFormed(DropDir(t, p, k), total)
    requires var b := EntryAt(t, p, k).start; b in t.folders && t.folders[b].entries == []
    requires Exists(t, path, false)
    ensures Stays(t, DropDir(t, p, k), path)
  {
    hide SubStays, Name, WellFormed, Lead, Onward;
    FolderEntry(t, total, p, k);
    DropDirOnward(t, total, p, k);
    DropNamed(t.folders[p].entries, k, Name(path));
    StaysIf(t, DropDir(t, p, k), total, EntryAt(t, p, k).start, path);
  }

  // ---- a file that is left alone ----

  /** The file at the path is where it was and its blocks are what they were. */
  ghost predicate LeftAlone(a: Moment, b: Moment, path: string) {
    Stays(a.tree, b.tree, path) && RunKept(a.disk, b.disk, FileAt(a.tree, path))
  }

  lemma FileSlot(t: Tree, path: string)
    requires Exists(t, path, false)
    ensures var (p, i) := Target(t, path).value; Slot(t, p, i) && EntryAt(t, p, i) == FileAt(t, path) && !EntryAt(t, p, i).isDir
  {
    hide Target;
  }

  lemma KeptAt(t: Tree, before: Disk, after: Disk, g: nat, j: int, path: string)
    requires FilesKept(t, before, after, g, j) && Exists(t, path, false) && Target(t, path).value != (g, j)
    ensures RunKept(before, after, FileAt(t, path))
  {
    hide Target, RunKept;
    FileSlot(t, path);
  }

  lemma NothingChanged(a: Moment, total: nat, path: string)
    requires SoundAt(a, total) && Exists(a.tree, path, false)
    ensures LeftAlone(a, a, path)
  {
    hide Target, FoldersOk, SlotsOk, Apart, Holds, Described, Tracks;
    FileSlot(a.tree, path);
    var e := FileAt(a.tree, path);
    forall x | Has(e, x) ensures x in a.disk {
      assert Owned(a.tree, x);
    }
  }

  ghost predicate Elsewhere(a: Moment, other: string, path: string) {
    Exists(a.tree, path, false) && Target(a.tree, other) != Target(a.tree, path)
  }

  lemma DeleteAlone(a: Moment, b: Moment, total: nat, other: string, path: string)
    requires SoundAt(a, total) && SoundAt(b, total) && Elsewhere(a, other, path) && Exists(a.tree, other, false) && FileRemoved(a, b, other)
    ensures LeftAlone(a, b, path)
  {
    hide Target, WellFormed, Holds, Present, Described, Tracks, FilesKept, Stays, RunKept, Drop;
    var (p, k) := Target(a.tree, other).value;
    FileSlot(a.tree, other);
    DropStaysAt(a.tree, total, p, k, path);
    KeptAt(a.tree, a.disk, b.disk, p, k, path);
  }

  lemma RmdirAlone(a: Moment, b: Moment, total: nat, other: string, path: string)
    requires SoundAt(a, total) && SoundAt(b, total) && Elsewhere(a, other, path) && Removable(a.tree, other) && FolderRemoved(a, b, other)
    ensures LeftAlone(a, b, path)
  {
    hide Target, WellFormed, Holds, Present, Described, Tracks, FilesKept, Stays, RunKept, DropDir, Lead;
    var (p, k) := Target(a.tree, other).value;
    TargetFolder(a.tree, other, Lead(a.tree, other).value);
    DropDirStays(a.tree, total, p, k, path);
    KeptAt(a.tree, a.disk, b.disk, p, k, path);
  }

  lemma MkdirAlone(a: Moment, b: Moment, total: nat, other: string, path: string)
    requires SoundAt(a, total) && SoundAt(b, total) && Elsewhere(a, other, path) && FolderMade(a, b, total, other)
    ensures LeftAlone(a, b, path)
  {
    hide Target, WellFormed, Holds, Present, Described, Tracks, FilesKept, Stays, RunKept, AddDir, FirstFree;
    var (p, k) := Target(a.tree, other).value;
    var e := EntryAt(b.tree, p, k);
    FoundSpace(a.list, total, e.start, 1);
    if e.start in a.tree.folders { NoFolderInNew(a.tree, total, a.list, e, e.start); }
    AddDirStays(a.tree, total, p, e, other, path);
    KeptAt(a.tree, a.disk, b.disk, p, k, path);
  }

  lemma NewAlone(a: Moment, b: Moment, total: nat, other: string, m: FileMeta, data: string, path: string)
    requires SoundAt(a, total) && SoundAt(b, total) && Exists(a.tree, path, false) && FileMade(a, b, total, other, m, data)
    ensures LeftAlone(a, b, path)
  {
    hide Target, WellFormed, Holds, Present, Described, Tracks, FilesKept, Stays, RunKept, AddFile, FirstFree, IsFile, FileBlocks;
    var p := Target(a.tree, other).value.0;
    var n := |a.tree.folders[p].entries|;
    FileSlot(a.tree, path);
    AddFileStays(a.tree, total, p, EntryAt(b.tree, p, n), path);
    KeptAt(a.tree, a.disk, b.disk, p, n, path);
  }

  lemma SetAlone(a: Moment, b: Moment, total: nat, other: string, e: Entry, path: string)
    requires SoundAt(a, total) && SoundAt(b, total) && Elsewhere(a, other, path) && Exists(a.tree, other, false)
    requires e == OldEntry(a.tree, other).(start := e.start, count := e.count)
    requires b.tree == SetEntry(a.tree, other, e) && KeptOthers(a, b, other)
    ensures LeftAlone(a, b, path)
  {
    hide Target, WellFormed, Holds, Present, Described, Tracks, FilesKept, Stays, RunKept, SetFile;
    var (p, k) := Target(a.tree, other).value;
    FileSlot(a.tree, other);
    SetFileStays(a.tree, total, p, k, e, path);
    KeptAt(a.tree, a.disk, b.disk, p, k, path);
  }

  lemma WriteAlone(a: Moment, b: Moment, total: nat, other: string, filetype: string, fileformat: string, now: string, data: string,
                   outcome: Outcome, path: string)
    requires SoundAt(a, total) && SoundAt(b, total) && Elsewhere(a, other, path) && outcome != Lost
    requires WriteEffect(a, b, total, other, filetype, fileformat, now, data, outcome)
    ensures LeftAlone(a, b, path)
  {
    hide SoundAt, Target, FileMade, FileLost, Stranded, HasRoom, NoSpace, FileBlocks, LeftAlone, Lands, EntryFits, IsFile, KeptOthers,
         SetEntry, OldEntry, NewMeta;
    var m := NewMeta(other, filetype, fileformat, now, IsHidden(a.tree, other));
    if outcome == Refused {
      NothingChanged(a, total, path);
    } else if Exists(a.tree, other, false) {
      var e :| Rewritten(a, b, total, other, m, data, outcome, e);
      SetAlone(a, b, total, other, e, path);
    } else {
      NewAlone(a, b, total, other, m, data, path);
    }
  }

  lemma AppendAlone(a: Moment, b: Moment, total: nat, other: string, data: string, now: string, outcome: Outcome, path: string)
    requires SoundAt(a, total) && SoundAt(b, total) && Elsewhere(a, other, path) && outcome != Lost
    requires AppendEffect(a, b, total, other, data, now, outcome)
    ensures LeftAlone(a, b, path)
  {
    hide SoundAt, Target, Stranded, NoSpace, LeftAlone, FirstFree, EntryFits, KeptOthers, SetEntry, OldEntry, PlanAt, Copied,
         Recognised;
    if outcome == Refused {
      NothingChanged(a, total, path);
    } else {
      var e :| Appended(a, b, total, other, data, now, outcome, e);
      SetAlone(a, b, total, other, e, path);
    }
  }

  /** An operation on another entry leaves the file at the path alone. */
  lemma OtherAlone(op: Op, now: string, total: nat, a: Moment, b: Moment, outcome: Outcome, path: string)
    requires SoundAt(a, total) && SoundAt(b, total) && Effect(op, now, total, a, b, outcome) && outcome != Lost
    requires Elsewhere(a, op.path, path)
    ensures LeftAlone(a, b, path)
  {
    hide SoundAt, LeftAlone, FileMade, FolderMade, FileRemoved, FolderRemoved, FileLost, WriteEffect, AppendEffect, Target, Removable,
         MkdirRefused, NoSpace, HasRoom, FileBlocks, NewMeta;
    match op {
      case MkdirOp(other) => if a == b { NothingChanged(a, total, path); } else { MkdirAlone(a, b, total, other, path); }
      case RmdirOp(other) => if a == b { NothingChanged(a, total, path); } else { RmdirAlone(a, b, total, other, path); }
      case DeleteOp(other) => if a == b { NothingChanged(a, total, path); } else { DeleteAlone(a, b, total, other, path); }
      case CreateOp(other, filetype, fileformat) =>
        if a == b { NothingChanged(a, total, path); }
        else { NewAlone(a, b, total, other, NewMeta(other, filetype, fileformat, now, false), [], path); }
      case WriteOp(other, seg1, seg2, filetype, fileformat) =>
        WriteAlone(a, b, total, other, filetype, fileformat, now, seg1 + seg2, outcome, path);
      case AppendOp(other, data) => AppendAlone(a, b, total, other, data, now, outcome, path);
    }
  }

  lemma AloneTwice(a: Moment, b: Moment, c: Moment, path: string)
    requires LeftAlone(a, b, path) && LeftAlone(b, c, path)
    ensures LeftAlone(a, c, path)
  {
    hide Target;
  }

  /** Over a run whose operations are all on other entries, a file keeps its run and its blocks, and so its record and
      its data. */
  lemma {:induction false} FileSurvives(ops: seq<Op>, clock: seq<string>, total: nat, trace: seq<Moment>, outcomes: seq<Outcome>, n: nat,
                                        path: string)
    requires Traced(ops, clock, total, trace, outcomes) && Lasting(outcomes) && n <= |outcomes| && Exists(trace[0].tree, path, false)
    requires forall i :: 0 <= i < n ==> Exists(trace[i].tree, path, false) ==> Elsewhere(trace[i], ops[i].path, path)
    ensures LeftAlone(trace[0], trace[n], path)
    ensures forall m, data :: IsFile(trace[0].disk, FileAt(trace[0].tree, path).start, FileAt(trace[0].tree, path).count, m, data) ==>
              IsFile(trace[n].disk, FileAt(trace[0].tree, path).start, FileAt(trace[0].tree, path).count, m, data)
    decreases n
  {
    hide Effect, SoundAt, Elsewhere, LeftAlone, IsFile, Exists, FileAt;
    if n == 0 {
      NothingChanged(trace[0], total, path);
    } else {
      FileSurvives(ops, clock, total, trace, outcomes, n - 1, path);
      AloneExists(trace[0], trace[n - 1], path);
      OtherAlone(ops[n - 1], clock[n - 1], total, trace[n - 1], trace[n], outcomes[n - 1], path);
      AloneTwice(trace[0], trace[n - 1], trace[n], path);
    }
    forall m, data | IsFile(trace[0].disk, FileAt(trace[0].tree, path).start, FileAt(trace[0].tree, path).count, m, data)
      ensures IsFile(trace[n].disk, FileAt(trace[0].tree, path).start, FileAt(trace[0].tree, path).count, m, data)
    {
      AloneFile(trace[0], trace[n], path, m, data);
    }
  }

  lemma AloneExists(a: Moment, b: Moment, path: string)
    requires LeftAlone(a, b, path)
    ensures Exists(a.tree, path, false) && Exists(b.tree, path, false)
  {
  }

  lemma AloneFile(a: Moment, b: Moment, path: string, m: FileMeta, data: string)
    requires LeftAlone(a, b, path) && Exists(a.tree, path, false)
    requires IsFile(a.disk, FileAt(a.tree, path).start, FileAt(a.tree, path).count, m, data)
    ensures IsFile(b.disk, FileAt(a.tree, path).start, FileAt(a.tree, path).count, m, data)
  {
    hide IsFile, Target;
    var e := FileAt(a.tree, path);
    forall x | InRun(x, e.start, e.count) ensures x in a.disk && x in b.disk && b.disk[x] == a.disk[x] {
      assert Has(e, x);
    }
    StillFile(a.disk, b.disk, e.start, e.count, m, data);
  }
}
