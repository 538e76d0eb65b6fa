/** The directory tree of a volume as a value: live folder blocks, the runs their entries name, and what edits
    of one entry do to the blocks that are in use. */
module Directory {
  import opened Options
  import opened FolderDesc

  /** Folders by block. The rank grows from a folder to its subfolders. */
  datatype Tree = Tree(root: nat, folders: map<nat, Folder>, rank: map<nat, nat>, bound: nat)

  ghost predicate Slot(t: Tree, f: nat, i: int) {
    f in t.folders && 0 <= i < |t.folders[f].entries|
  }

  ghost function EntryAt(t: Tree, f: nat, i: int): Entry
    requires Slot(t, f, i)
  {
    t.folders[f].entries[i]
  }

  ghost predicate Has(e: Entry, x: int) { e.start <= x < e.start + e.count }

  ghost predicate Inside(e: Entry, root: nat, total: nat) {
    1 <= e.count && 1 <= e.start && e.start + e.count <= total && !Has(e, root)
  }

  ghost predicate Below(t: Tree, f: nat, e: Entry) {
    e.isDir ==> e.count == 1 && e.start in t.folders && e.start in t.rank && f in t.rank && t.rank[f] < t.rank[e.start]
  }

  ghost predicate Disjoint(a: Entry, b: Entry) {
    a.start + a.count <= b.start || b.start + b.count <= a.start
  }

  ghost predicate Named(t: Tree, f: nat) {
    exists g, i :: Slot(t, g, i) && EntryAt(t, g, i).isDir && EntryAt(t, g, i).start == f
  }

  ghost predicate SlotsOk(t: Tree, total: nat) {
    forall f, i :: Slot(t, f, i) ==> Inside(EntryAt(t, f, i), t.root, total) && Below(t, f, EntryAt(t, f, i))
  }

  /** The runs of distinct entries do not meet. */
  ghost predicate Apart(t: Tree) {
    forall f, i, g, j :: Slot(t, f, i) && Slot(t, g, j) && (f != g || i != j) ==> Disjoint(EntryAt(t, f, i), EntryAt(t, g, j))
  }

  ghost predicate FoldersOk(t: Tree) {
    && (forall f :: f in t.folders ==> FolderOk(t.folders[f]) && f in t.rank && t.rank[f] <= t.bound)
    && (forall f :: f in t.folders && f != t.root ==> Named(t, f))
  }

  /** Runs lie in [1, total), miss the root block and one another, and every folder hangs below the root. */
  ghost predicate WellFormed(t: Tree, total: nat) {
    && t.root in t.folders && 1 <= t.root < total
    && FoldersOk(t) && SlotsOk(t, total) && Apart(t)
  }

  ghost predicate InSlot(t: Tree, x: int) {
    exists f, i :: Slot(t, f, i) && Has(EntryAt(t, f, i), x)
  }

  /** The blocks in use: the storage descriptor, the root folder and the runs of all entries. */
  ghost predicate Owned(t: Tree, x: int) {
    x == 0 || x == t.root || InSlot(t, x)
  }

  /** No block of the run is in use. */
  ghost predicate Unused(t: Tree, e: Entry) {
    forall x :: Has(e, x) ==> !Owned(t, x)
  }

  lemma FolderIsOwned(t: Tree, total: nat, f: nat)
    requires WellFormed(t, total) && f in t.folders
    ensures Owned(t, f) && 1 <= f < total
  {
    if f != t.root {
      assert Named(t, f);
      var g, i :| Slot(t, g, i) && EntryAt(t, g, i).isDir && EntryAt(t, g, i).start == f;
      assert Has(EntryAt(t, g, i), f);
    }
  }

  /** A run that meets no block of another one lies beside it. */
  lemma UnusedApart(t: Tree, total: nat, e: Entry, f: nat, i: int)
    requires SlotsOk(t, total) && Slot(t, f, i) && Unused(t, e) && e.count > 0
    ensures Disjoint(e, EntryAt(t, f, i))
  {
    var a := EntryAt(t, f, i);
    assert Has(e, e.start) && !Owned(t, e.start);
    assert !Has(a, e.start);
    assert Has(a, a.start);
    assert Owned(t, a.start);
    assert !Has(e, a.start);
  }

  // ---- a new entry ----

  function Extended(d: Folder, e: Entry): Folder { d.(entries := d.entries + [e]) }

  ghost function AddFile(t: Tree, p: nat, e: Entry): Tree
    requires p in t.folders
  {
    t.(folders := t.folders[p := Extended(t.folders[p], e)])
  }

  lemma AddSlot(t: Tree, p: nat, e: Entry, f: nat, i: int)
    requires p in t.folders
    ensures var u, n := AddFile(t, p, e), |t.folders[p].entries|;
            && (Slot(u, f, i) <==> Slot(t, f, i) || (f == p && i == n))
            && (Slot(t, f, i) ==> EntryAt(u, f, i) == EntryAt(t, f, i))
            && EntryAt(u, p, n) == e && !Slot(t, p, n)
  {
  }

  lemma AddOwned(t: Tree, p: nat, e: Entry, x: int)
    requires p in t.folders
    ensures InSlot(AddFile(t, p, e), x) <==> InSlot(t, x) || Has(e, x)
  {
    hide Has, AddFile, Slot;
    var u, n := AddFile(t, p, e), |t.folders[p].entries|;
    AddSlot(t, p, e, p, n);
    if InSlot(u, x) {
      var f, i :| Slot(u, f, i) && Has(EntryAt(u, f, i), x);
      AddSlot(t, p, e, f, i);
    }
    if InSlot(t, x) {
      var f, i :| Slot(t, f, i) && Has(EntryAt(t, f, i), x);
      AddSlot(t, p, e, f, i);
    }
  }

  lemma AddApart(t: Tree, total: nat, p: nat, e: Entry)
    requires p in t.folders && SlotsOk(t, total) && Apart(t) && Unused(t, e) && e.count > 0
    ensures Apart(AddFile(t, p, e))
  {
    hide AddFile, Slot, Unused, SlotsOk;
    var u, n := AddFile(t, p, e), |t.folders[p].entries|;
    forall f, i, g, j | Slot(u, f, i) && Slot(u, g, j) && (f != g || i != j)
      ensures Disjoint(EntryAt(u, f, i), EntryAt(u, g, j))
    {
      AddSlot(t, p, e, f, i);
      AddSlot(t, p, e, g, j);
      if f == p && i == n {
        UnusedApart(t, total, e, g, j);
      } else if g == p && j == n {
        UnusedApart(t, total, e, f, i);
      }
    }
  }

  lemma AddNamed(t: Tree, p: nat, e: Entry, f: nat)
    requires p in t.folders && Named(t, f)
    ensures Named(AddFile(t, p, e), f)
  {
    hide AddFile, Slot;
    var g, i :| Slot(t, g, i) && EntryAt(t, g, i).isDir && EntryAt(t, g, i).start == f;
    AddSlot(t, p, e, g, i);
  }

  lemma AddSlotsOk(t: Tree, total: nat, p: nat, e: Entry)
    requires p in t.folders && SlotsOk(t, total) && Inside(e, t.root, total) && Below(t, p, e)
    ensures SlotsOk(AddFile(t, p, e), total)
  {
    hide Inside, Slot;
    var u := AddFile(t, p, e);
    forall f, i | Slot(u, f, i) ensures Inside(EntryAt(u, f, i), u.root, total) && Below(u, f, EntryAt(u, f, i)) {
      AddSlot(t, p, e, f, i);
    }
  }

  lemma AddKeeps(t: Tree, total: nat, p: nat, e: Entry)
    requires WellFormed(t, total) && p in t.folders && Unused(t, e) && Inside(e, t.root, total) && Below(t, p, e)
    requires FolderOk(Extended(t.folders[p], e))
    ensures WellFormed(AddFile(t, p, e), total)
  {
    hide Slot, Unused, Apart, SlotsOk, Below, Inside, FolderOk, Named;
    var u := AddFile(t, p, e);
    assert e.count > 0 by { InsideCount(e, t.root, total); }
    AddApart(t, total, p, e);
    AddSlotsOk(t, total, p, e);
    forall f | f in u.folders && f != u.root ensures Named(u, f) {
      AddNamed(t, p, e, f);
    }
  }

  lemma InsideCount(e: Entry, root: nat, total: nat)
    requires Inside(e, root, total)
    ensures e.count > 0
  {
  }

  // ---- a new folder ----

  /** An empty folder at block b, not yet named. */
  ghost function Sprout(t: Tree, p: nat, b: nat, path: string): Tree
    requires p in t.rank
  {
    var r := t.rank[p] + 1;
    Tree(t.root, t.folders[b := Folder(path, [])], t.rank[b := r], if t.bound < r then r else t.bound)
  }

  ghost function AddDir(t: Tree, p: nat, e: Entry, path: string): Tree
    requires p in t.rank && p in t.folders
  {
    AddFile(Sprout(t, p, e.start, path), p, e)
  }

  lemma SproutSlot(t: Tree, p: nat, b: nat, path: string, f: nat, i: int)
    requires p in t.rank && b !in t.folders
    ensures var u := Sprout(t, p, b, path);
            && (Slot(u, f, i) <==> Slot(t, f, i))
            && (Slot(t, f, i) ==> EntryAt(u, f, i) == EntryAt(t, f, i))
  {
  }

  lemma SproutOwned(t: Tree, p: nat, b: nat, path: string, x: int)
    requires p in t.rank && b !in t.folders
    ensures InSlot(Sprout(t, p, b, path), x) <==> InSlot(t, x)
  {
    hide Has, Sprout, Slot;
    var u := Sprout(t, p, b, path);
    if InSlot(u, x) {
      var f, i :| Slot(u, f, i) && Has(EntryAt(u, f, i), x);
      SproutSlot(t, p, b, path, f, i);
    }
    if InSlot(t, x) {
      var f, i :| Slot(t, f, i) && Has(EntryAt(t, f, i), x);
      SproutSlot(t, p, b, path, f, i);
    }
  }

  lemma SproutKeeps(t: Tree, total: nat, p: nat, b: nat, path: string)
    requires SlotsOk(t, total) && Apart(t) && p in t.rank && b !in t.folders
    ensures var u := Sprout(t, p, b, path); SlotsOk(u, total) && Apart(u)
  {
    hide Inside, Slot, Disjoint;
    var u := Sprout(t, p, b, path);
    forall f, i | Slot(u, f, i) ensures Inside(EntryAt(u, f, i), u.root, total) && Below(u, f, EntryAt(u, f, i)) {
      SproutSlot(t, p, b, path, f, i);
      assert f != b by { SlotFolder(t, f, i); }
      assert EntryAt(t, f, i).isDir ==> EntryAt(t, f, i).start != b;
    }
    forall f, i, g, j | Slot(u, f, i) && Slot(u, g, j) && (f != g || i != j)
      ensures Disjoint(EntryAt(u, f, i), EntryAt(u, g, j))
    {
      SproutSlot(t, p, b, path, f, i);
      SproutSlot(t, p, b, path, g, j);
    }
  }

  lemma SlotFolder(t: Tree, f: nat, i: int)
    requires Slot(t, f, i)
    ensures f in t.folders
  {
  }

  lemma SproutNamed(t: Tree, p: nat, b: nat, path: string, f: nat)
    requires p in t.rank && b !in t.folders && Named(t, f)
    ensures Named(Sprout(t, p, b, path), f)
  {
    hide Sprout, Slot;
    var g, i :| Slot(t, g, i) && EntryAt(t, g, i).isDir && EntryAt(t, g, i).start == f;
    SproutSlot(t, p, b, path, g, i);
  }

  lemma AddDirOwned(t: Tree, p: nat, e: Entry, path: string, x: int)
    requires p in t.rank && p in t.folders && e.start !in t.folders
    ensures Owned(AddDir(t, p, e, path), x) <==> Owned(t, x) || Has(e, x)
  {
    hide Slot, Has;
    var v := Sprout(t, p, e.start, path);
    SproutOwned(t, p, e.start, path, x);
    AddOwned(v, p, e, x);
  }

  lemma AddDirKeeps(t: Tree, total: nat, p: nat, e: Entry, path: string)
    requires WellFormed(t, total) && p in t.folders && p in t.rank && Unused(t, e) && Inside(e, t.root, total)
    requires e.isDir && e.count == 1 && FolderOk(Extended(t.folders[p], e)) && FolderOk(Folder(path, []))
    ensures e.start !in t.folders && WellFormed(AddDir(t, p, e, path), total)
  {
    hide Slot, Apart, SlotsOk, Inside, FolderOk, Named;
    assert e.start !in t.folders by {
      assert Has(e, e.start) && !Owned(t, e.start);
      if e.start in t.folders { FolderIsOwned(t, total, e.start); }
    }
    var v := Sprout(t, p, e.start, path);
    SproutKeeps(t, total, p, e.start, path);
    assert Unused(v, e) by {
      forall x | Has(e, x) ensures !Owned(v, x) {
        assert !Owned(t, x);
        SproutOwned(t, p, e.start, path, x);
      }
    }
    hide Unused, Has, Owned;
    AddApart(v, total, p, e);
    AddSlotsOk(v, total, p, e);
    AddDirNamed(t, total, p, e, path);
  }

  lemma AddDirNamed(t: Tree, total: nat, p: nat, e: Entry, path: string)
    requires FoldersOk(t) && p in t.folders && p in t.rank && e.isDir && e.start !in t.folders
    requires FolderOk(Extended(t.folders[p], e)) && FolderOk(Folder(path, []))
    ensures FoldersOk(AddDir(t, p, e, path))
  {
    hide Slot, FolderOk, Named;
    var v := Sprout(t, p, e.start, path);
    var u := AddFile(v, p, e);
    forall f | f in u.folders && f != u.root ensures Named(u, f) {
      if f == e.start {
        NewNamed(v, p, e);
      } else {
        SproutNamed(t, p, e.start, path, f);
        AddNamed(v, p, e, f);
      }
    }
  }

  lemma NewNamed(t: Tree, p: nat, e: Entry)
    requires p in t.folders && e.isDir
    ensures Named(AddFile(t, p, e), e.start)
  {
    hide AddFile;
    AddSlot(t, p, e, p, |t.folders[p].entries|);
    assert Slot(AddFile(t, p, e), p, |t.folders[p].entries|);
  }

  // ---- a run moved or shrunk ----

  function Changed(d: Folder, k: nat, e: Entry): Folder
    requires k < |d.entries|
  {
    d.(entries := d.entries[k := e])
  }

  ghost function SetFile(t: Tree, p: nat, k: nat, e: Entry): Tree
    requires Slot(t, p, k)
  {
    t.(folders := t.folders[p := Changed(t.folders[p], k, e)])
  }

  lemma SetSlot(t: Tree, p: nat, k: nat, e: Entry, f: nat, i: int)
    requires Slot(t, p, k)
    ensures var u := SetFile(t, p, k, e);
            && (Slot(u, f, i) <==> Slot(t, f, i))
            && (Slot(t, f, i) ==> EntryAt(u, f, i) == if f == p && i == k then e else EntryAt(t, f, i))
  {
  }

  /** No block of the run is in use but by the entry itself. */
  ghost predicate OwnRun(t: Tree, p: nat, k: nat, e: Entry)
    requires Slot(t, p, k)
  {
    forall x :: Has(e, x) && Owned(t, x) ==> Has(EntryAt(t, p, k), x)
  }

  lemma OwnApart(t: Tree, total: nat, p: nat, k: nat, e: Entry, f: nat, i: int)
    requires SlotsOk(t, total) && Apart(t) && Slot(t, p, k) && Slot(t, f, i) && (f != p || i != k)
    requires OwnRun(t, p, k, e) && e.count > 0
    ensures Disjoint(e, EntryAt(t, f, i))
  {
    var a, o := EntryAt(t, f, i), EntryAt(t, p, k);
    assert Disjoint(a, o);
    assert Has(a, a.start);
    assert Owned(t, a.start);
    assert Has(e, a.start) ==> Has(o, a.start);
    if Has(a, e.start) {
      assert Has(e, e.start) && Owned(t, e.start);
      assert Has(o, e.start);
    }
  }

  lemma SetOwned(t: Tree, total: nat, p: nat, k: nat, e: Entry, x: int)
    requires WellFormed(t, total) && Slot(t, p, k)
    ensures Owned(SetFile(t, p, k, e), x) <==> (Owned(t, x) && !Has(EntryAt(t, p, k), x)) || Has(e, x)
  {
    hide SetFile, Slot, FoldersOk;
    var u, o := SetFile(t, p, k, e), EntryAt(t, p, k);
    SetSlot(t, p, k, e, p, k);
    if InSlot(u, x) {
      var f, i :| Slot(u, f, i) && Has(EntryAt(u, f, i), x);
      SetSlot(t, p, k, e, f, i);
    }
    if InSlot(t, x) {
      var f, i :| Slot(t, f, i) && Has(EntryAt(t, f, i), x);
      SetSlot(t, p, k, e, f, i);
    }
    assert u.root == t.root by { SetRoot(t, p, k, e); }
  }

  lemma SetRoot(t: Tree, p: nat, k: nat, e: Entry)
    requires Slot(t, p, k)
    ensures SetFile(t, p, k, e).root == t.root
  {
  }

  lemma SetSlots(t: Tree, total: nat, p: nat, k: nat, e: Entry)
    requires SlotsOk(t, total) && Apart(t) && Slot(t, p, k)
    requires !e.isDir && OwnRun(t, p, k, e) && Inside(e, t.root, total)
    ensures var u := SetFile(t, p, k, e); SlotsOk(u, total) && Apart(u)
  {
    hide Slot, Inside, OwnRun, Disjoint;
    InsideCount(e, t.root, total);
    var u := SetFile(t, p, k, e);
    forall f, i | Slot(u, f, i) ensures Inside(EntryAt(u, f, i), u.root, total) && Below(u, f, EntryAt(u, f, i)) {
      SetSlot(t, p, k, e, f, i);
    }
    forall f, i, g, j | Slot(u, f, i) && Slot(u, g, j) && (f != g || i != j)
      ensures Disjoint(EntryAt(u, f, i), EntryAt(u, g, j))
    {
      SetSlot(t, p, k, e, f, i);
      SetSlot(t, p, k, e, g, j);
      if f == p && i == k {
        OwnApart(t, total, p, k, e, g, j);
      } else if g == p && j == k {
        OwnApart(t, total, p, k, e, f, i);
        Symmetric(e, EntryAt(t, f, i));
      }
    }
  }

  lemma Symmetric(a: Entry, b: Entry)
    ensures Disjoint(a, b) <==> Disjoint(b, a)
  {
  }

  lemma SetNamed(t: Tree, p: nat, k: nat, e: Entry, f: nat)
    requires Slot(t, p, k) && !EntryAt(t, p, k).isDir && Named(t, f)
    ensures Named(SetFile(t, p, k, e), f)
  {
    hide SetFile, Slot;
    var g, i :| Slot(t, g, i) && EntryAt(t, g, i).isDir && EntryAt(t, g, i).start == f;
    SetSlot(t, p, k, e, g, i);
  }

  lemma SetKeeps(t: Tree, total: nat, p: nat, k: nat, e: Entry)
    requires WellFormed(t, total) && Slot(t, p, k) && !EntryAt(t, p, k).isDir && !e.isDir
    requires OwnRun(t, p, k, e) && Inside(e, t.root, total) && FolderOk(Changed(t.folders[p], k, e))
    ensures WellFormed(SetFile(t, p, k, e), total)
  {
    hide Slot, Apart, SlotsOk, Inside, FolderOk, Named, OwnRun;
    SlotFolder(t, p, k);
    var u := SetFile(t, p, k, e);
    SetSlots(t, total, p, k, e);
    forall f | f in u.folders && f != u.root ensures Named(u, f) {
      SetNamed(t, p, k, e, f);
    }
  }

  // ---- an entry removed ----

  function Shortened(d: Folder, k: nat): Folder
    requires k < |d.entries|
  {
    d.(entries := d.entries[..k] + d.entries[k + 1..])
  }

  ghost function Drop(t: Tree, p: nat, k: nat): Tree
    requires Slot(t, p, k)
  {
    t.(folders := t.folders[p := Shortened(t.folders[p], k)])
  }

  /** Where the entry at i was before. */
  ghost function Was(p: nat, k: nat, f: nat, i: int): int { if f == p && i >= k then i + 1 else i }

  lemma DropSlot(t: Tree, p: nat, k: nat, f: nat, i: int)
    requires Slot(t, p, k) && Slot(Drop(t, p, k), f, i)
    ensures Slot(t, f, Was(p, k, f, i)) && EntryAt(Drop(t, p, k), f, i) == EntryAt(t, f, Was(p, k, f, i))
    ensures f != p || Was(p, k, f, i) != k
  {
  }

  lemma StillSlot(t: Tree, p: nat, k: nat, f: nat, i: int) returns (j: int)
    requires Slot(t, p, k) && Slot(t, f, i) && (f != p || i != k)
    ensures Slot(Drop(t, p, k), f, j) && EntryAt(Drop(t, p, k), f, j) == EntryAt(t, f, i)
  {
    j := if f == p && i > k then i - 1 else i;
  }

  lemma DropOwned(t: Tree, total: nat, p: nat, k: nat, x: int)
    requires WellFormed(t, total) && Slot(t, p, k)
    ensures Owned(Drop(t, p, k), x) <==> Owned(t, x) && !Has(EntryAt(t, p, k), x)
  {
    hide Slot, FoldersOk, Was;
    var u, o := Drop(t, p, k), EntryAt(t, p, k);
    if InSlot(u, x) {
      var f, i :| Slot(u, f, i) && Has(EntryAt(u, f, i), x);
      DropSlot(t, p, k, f, i);
      assert Disjoint(EntryAt(t, f, Was(p, k, f, i)), o);
    }
    if InSlot(t, x) && !Has(o, x) {
      var f, i :| Slot(t, f, i) && Has(EntryAt(t, f, i), x);
      var j := StillSlot(t, p, k, f, i);
    }
  }

  lemma DropSlots(t: Tree, total: nat, p: nat, k: nat)
    requires SlotsOk(t, total) && Apart(t) && Slot(t, p, k)
    ensures var u := Drop(t, p, k); SlotsOk(u, total) && Apart(u)
  {
    hide Slot, Inside, Disjoint;
    var u := Drop(t, p, k);
    forall f, i | Slot(u, f, i) ensures Inside(EntryAt(u, f, i), u.root, total) && Below(u, f, EntryAt(u, f, i)) {
      DropSlot(t, p, k, f, i);
    }
    forall f, i, g, j | Slot(u, f, i) && Slot(u, g, j) && (f != g || i != j)
      ensures Disjoint(EntryAt(u, f, i), EntryAt(u, g, j))
    {
      DropSlot(t, p, k, f, i);
      DropSlot(t, p, k, g, j);
    }
  }

  lemma DropNamed(t: Tree, p: nat, k: nat, f: nat)
    requires Slot(t, p, k) && Named(t, f) && !(EntryAt(t, p, k).isDir && EntryAt(t, p, k).start == f)
    ensures Named(Drop(t, p, k), f)
  {
    hide Slot, Drop;
    var g, i :| Slot(t, g, i) && EntryAt(t, g, i).isDir && EntryAt(t, g, i).start == f;
    var j := StillSlot(t, p, k, g, i);
  }

  lemma ShortenedOk(d: Folder, k: nat)
    requires FolderOk(d) && k < |d.entries|
    ensures FolderOk(Shortened(d, k))
  {
  }

  lemma DropKeeps(t: Tree, total: nat, p: nat, k: nat)
    requires WellFormed(t, total) && Slot(t, p, k) && !EntryAt(t, p, k).isDir
    ensures WellFormed(Drop(t, p, k), total)
  {
    hide Apart, SlotsOk, FolderOk, Named;
    var u := Drop(t, p, k);
    DropSlots(t, total, p, k);
    ShortenedOk(t.folders[p], k);
    forall f | f in u.folders && f != u.root ensures Named(u, f) {
      DropNamed(t, p, k, f);
    }
  }

  // ---- a folder removed ----

  /** Without a folder that has no entries. */
  ghost function Prune(t: Tree, b: nat): Tree { t.(folders := t.folders - {b}) }

  ghost function DropDir(t: Tree, p: nat, k: nat): Tree
    requires Slot(t, p, k)
  {
    Prune(Drop(t, p, k), EntryAt(t, p, k).start)
  }

  lemma PruneSlot(t: Tree, b: nat, f: nat, i: int)
    requires b in t.folders && t.folders[b].entries == []
    ensures Slot(Prune(t, b), f, i) <==> Slot(t, f, i)
    ensures Slot(t, f, i) ==> EntryAt(Prune(t, b), f, i) == EntryAt(t, f, i)
  {
  }

  lemma PruneOwned(t: Tree, b: nat, x: int)
    requires b in t.folders && t.folders[b].entries == []
    ensures Owned(Prune(t, b), x) <==> Owned(t, x)
  {
    hide Slot, Has;
    if InSlot(t, x) {
      var f, i :| Slot(t, f, i) && Has(EntryAt(t, f, i), x);
      PruneSlot(t, b, f, i);
    }
    if InSlot(Prune(t, b), x) {
      var f, i :| Slot(Prune(t, b), f, i) && Has(EntryAt(Prune(t, b), f, i), x);
      PruneSlot(t, b, f, i);
    }
  }

  lemma PruneSlots(t: Tree, total: nat, b: nat)
    requires SlotsOk(t, total) && Apart(t) && b in t.folders && t.folders[b].entries == []
    requires forall f, i :: Slot(t, f, i) ==> EntryAt(t, f, i).start != b
    ensures SlotsOk(Prune(t, b), total) && Apart(Prune(t, b))
  {
    hide Slot, Inside, Disjoint;
    var u := Prune(t, b);
    forall f, i | Slot(u, f, i) ensures Inside(EntryAt(u, f, i), u.root, total) && Below(u, f, EntryAt(u, f, i)) {
      PruneSlot(t, b, f, i);
    }
    forall f, i, g, j | Slot(u, f, i) && Slot(u, g, j) && (f != g || i != j)
      ensures Disjoint(EntryAt(u, f, i), EntryAt(u, g, j))
    {
      PruneSlot(t, b, f, i);
      PruneSlot(t, b, g, j);
    }
  }

  lemma PruneNamed(t: Tree, b: nat, f: nat)
    requires b in t.folders && t.folders[b].entries == [] && Named(t, f)
    ensures Named(Prune(t, b), f)
  {
    hide Slot, Prune;
    var g, i :| Slot(t, g, i) && EntryAt(t, g, i).isDir && EntryAt(t, g, i).start == f;
    PruneSlot(t, b, g, i);
  }

  /** After its entry is gone, nothing names the block. */
  lemma NoLongerNamed(t: Tree, total: nat, p: nat, k: nat)
    requires SlotsOk(t, total) && Apart(t) && Slot(t, p, k)
    ensures var u := Drop(t, p, k); forall f, i :: Slot(u, f, i) ==> EntryAt(u, f, i).start != EntryAt(t, p, k).start
  {
    hide Slot, Was;
    var u, o := Drop(t, p, k), EntryAt(t, p, k);
    forall f, i | Slot(u, f, i) ensures EntryAt(u, f, i).start != o.start {
      DropSlot(t, p, k, f, i);
      assert Disjoint(EntryAt(t, f, Was(p, k, f, i)), o);
    }
  }

  lemma DropDirOwned(t: Tree, total: nat, p: nat, k: nat, x: int)
    requires WellFormed(t, total) && Slot(t, p, k) && EntryAt(t, p, k).isDir
    requires var b := EntryAt(t, p, k).start; b in t.folders && b != p && t.folders[b].entries == []
    ensures Owned(DropDir(t, p, k), x) <==> Owned(t, x) && !Has(EntryAt(t, p, k), x)
  {
    hide Owned, Has, WellFormed;
    DropOwned(t, total, p, k, x);
    PruneOwned(Drop(t, p, k), EntryAt(t, p, k).start, x);
  }

  lemma DropDirKeeps(t: Tree, total: nat, p: nat, k: nat)
    requires WellFormed(t, total) && Slot(t, p, k) && EntryAt(t, p, k).isDir
    requires var b := EntryAt(t, p, k).start; b in t.folders && b != p && b != t.root && t.folders[b].entries == []
    ensures WellFormed(DropDir(t, p, k), total)
  {
    hide Apart, SlotsOk, FolderOk, Named;
    var v, b := Drop(t, p, k), EntryAt(t, p, k).start;
    var u := Prune(v, b);
    DropSlots(t, total, p, k);
    NoLongerNamed(t, total, p, k);
    PruneSlots(v, total, b);
    ShortenedOk(t.folders[p], k);
    forall f | f in u.folders && f != u.root ensures Named(u, f) {
      DropNamed(t, p, k, f);
      PruneNamed(v, b, f);
    }
  }

  // ---- what a scan from a folder reaches ----

  ghost predicate Ranked(t: Tree) {
    && (forall f :: f in t.folders ==> f in t.rank && t.rank[f] <= t.bound)
    && (forall f, i :: Slot(t, f, i) ==> Below(t, f, EntryAt(t, f, i)))
  }

  /** The block is in a run named somewhere below the folder. */
  ghost predicate Under(t: Tree, f: nat, x: int)
    requires Ranked(t) && f in t.folders
    decreases t.bound - t.rank[f]
  {
    exists i :: Slot(t, f, i) &&
      (Has(EntryAt(t, f, i), x) || (EntryAt(t, f, i).isDir && Under(t, EntryAt(t, f, i).start, x)))
  }

  /** The block is in a run that the folder itself names. */
  ghost predicate Here(t: Tree, f: nat, x: int) {
    exists i :: Slot(t, f, i) && Has(EntryAt(t, f, i), x)
  }

  ghost predicate Subfolder(t: Tree, f: nat, s: nat) {
    exists i :: Slot(t, f, i) && EntryAt(t, f, i).isDir && EntryAt(t, f, i).start == s
  }

  ghost predicate UnderAny(t: Tree, subs: seq<nat>, x: int)
    requires Ranked(t)
  {
    exists s :: s in subs && s in t.folders && Under(t, s, x)
  }

  lemma UnderSplit(t: Tree, f: nat, subs: seq<nat>, x: int)
    requires Ranked(t) && f in t.folders && forall s :: s in subs <==> Subfolder(t, f, s)
    ensures Under(t, f, x) <==> Here(t, f, x) || UnderAny(t, subs, x)
  {
    hide Slot, Has;
    if Under(t, f, x) {
      var i :| Slot(t, f, i) && (Has(EntryAt(t, f, i), x) || (EntryAt(t, f, i).isDir && Under(t, EntryAt(t, f, i).start, x)));
      if !Has(EntryAt(t, f, i), x) {
        assert Subfolder(t, f, EntryAt(t, f, i).start);
      }
    }
    if UnderAny(t, subs, x) {
      var s :| s in subs && s in t.folders && Under(t, s, x);
      assert Subfolder(t, f, s);
      var i :| Slot(t, f, i) && EntryAt(t, f, i).isDir && EntryAt(t, f, i).start == s;
    }
  }

  lemma {:induction false} UnderInSlot(t: Tree, f: nat, x: int)
    requires Ranked(t) && f in t.folders && Under(t, f, x)
    ensures InSlot(t, x)
    decreases t.bound - t.rank[f]
  {
    var i :| Slot(t, f, i) && (Has(EntryAt(t, f, i), x) || (EntryAt(t, f, i).isDir && Under(t, EntryAt(t, f, i).start, x)));
    if !Has(EntryAt(t, f, i), x) {
      UnderInSlot(t, EntryAt(t, f, i).start, x);
    }
  }

  lemma {:induction false} UpToRoot(t: Tree, total: nat, f: nat, x: int)
    requires WellFormed(t, total) && Ranked(t) && f in t.folders && Under(t, f, x)
    ensures Under(t, t.root, x)
    decreases t.rank[f]
  {
    if f != t.root {
      assert Named(t, f);
      var g, i :| Slot(t, g, i) && EntryAt(t, g, i).isDir && EntryAt(t, g, i).start == f;
      assert Below(t, g, EntryAt(t, g, i));
      UpToRoot(t, total, g, x);
    }
  }

  /** A scan from the root meets exactly the runs of all entries. */
  lemma ReachesAll(t: Tree, total: nat, x: int)
    requires WellFormed(t, total)
    ensures Ranked(t) && (Under(t, t.root, x) <==> InSlot(t, x))
  {
    if Under(t, t.root, x) { UnderInSlot(t, t.root, x); }
    if InSlot(t, x) {
      var f, i :| Slot(t, f, i) && Has(EntryAt(t, f, i), x);
      assert Under(t, f, x);
      UpToRoot(t, total, f, x);
    }
  }

  // ---- finding entries ----

  /** The first entry of the name; the number of entries when there is none. */
  function FirstNamed(entries: seq<Entry>, name: string): (i: nat)
    ensures i <= |entries| && (i < |entries| ==> entries[i].name == name)
    ensures forall k :: 0 <= k < i ==> entries[k].name != name
  {
    if entries == [] || entries[0].name == name then 0 else 1 + FirstNamed(entries[1..], name)
  }

  /** The first folder of the name. */
  function FirstFolder(entries: seq<Entry>, name: string): (i: nat)
    ensures i <= |entries| && (i < |entries| ==> entries[i].name == name && entries[i].isDir)
    ensures forall k :: 0 <= k < i ==> entries[k].name != name || !entries[k].isDir
  {
    if entries == [] || (entries[0].name == name && entries[0].isDir) then 0 else 1 + FirstFolder(entries[1..], name)
  }

  lemma NamedIs(entries: seq<Entry>, name: string, i: nat)
    requires i <= |entries| && (i < |entries| ==> entries[i].name == name)
    requires forall k :: 0 <= k < i ==> entries[k].name != name
    ensures FirstNamed(entries, name) == i
  {
    var j := FirstNamed(entries, name);
  }

  lemma FolderIs(entries: seq<Entry>, name: string, i: nat)
    requires i <= |entries| && (i < |entries| ==> entries[i].name == name && entries[i].isDir)
    requires forall k :: 0 <= k < i ==> entries[k].name != name || !entries[k].isDir
    ensures FirstFolder(entries, name) == i
  {
    var j := FirstFolder(entries, name);
  }

  /** The folder that names lead to. */
  ghost function WalkFrom(t: Tree, f: nat, names: seq<string>): (r: Option<nat>)
    requires Ranked(t) && f in t.folders
    ensures r.Some? ==> r.value in t.folders
    decreases |names|
  {
    if names == [] then Some(f) else
      var k := FirstFolder(t.folders[f].entries, names[0]);
      if k == |t.folders[f].entries| then None else
        assert Slot(t, f, k);
        WalkFrom(t, EntryAt(t, f, k).start, names[1..])
  }

  lemma {:induction false} WalkJoin(t: Tree, f: nat, names: seq<string>, name: string)
    requires Ranked(t) && f in t.folders
    ensures var r := WalkFrom(t, f, names);
            WalkFrom(t, f, names + [name]) == if r.None? then None else WalkFrom(t, r.value, [name])
    decreases |names|
  {
    if names == [] {
      assert names + [name] == [name];
    } else {
      assert (names + [name])[1..] == names[1..] + [name];
      var k := FirstFolder(t.folders[f].entries, names[0]);
      if k < |t.folders[f].entries| {
        assert Slot(t, f, k);
        WalkJoin(t, EntryAt(t, f, k).start, names[1..], name);
      }
    }
  }

  lemma WellRanked(t: Tree, total: nat)
    requires WellFormed(t, total)
    ensures Ranked(t)
  {
  }

  /** The folder that a path leads to, when its parent leads to p and the first entry of its name is a folder. */
  lemma WalkLast(t: Tree, f: nat, names: seq<string>, name: string, p: nat)
    requires Ranked(t) && f in t.folders && WalkFrom(t, f, names) == Some(p)
    requires var k := FirstNamed(t.folders[p].entries, name);
             k < |t.folders[p].entries| && t.folders[p].entries[k].isDir
    ensures WalkFrom(t, f, names + [name]) == Some(t.folders[p].entries[FirstNamed(t.folders[p].entries, name)].start)
  {
    hide WalkFrom;
    WalkJoin(t, f, names, name);
    WalkOne(t, p, name);
    var entries := t.folders[p].entries;
    var j, k := FirstFolder(entries, name), FirstNamed(entries, name);
    assert j == k;
  }

  lemma WalkOne(t: Tree, p: nat, name: string)
    requires Ranked(t) && p in t.folders
    ensures var k := FirstFolder(t.folders[p].entries, name);
            WalkFrom(t, p, [name]) == if k == |t.folders[p].entries| then None else Some(t.folders[p].entries[k].start)
  {
    var k := FirstFolder(t.folders[p].entries, name);
    if k < |t.folders[p].entries| {
      assert Slot(t, p, k);
      assert [name][1..] == [];
      assert WalkFrom(t, EntryAt(t, p, k).start, []) == Some(EntryAt(t, p, k).start);
    }
  }
}
