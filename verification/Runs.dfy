/** Runs of operations, and what holds at every moment of them. */
module Runs {
  import opened Options
  import opened Tags
  import opened Descriptors
  import opened FolderDesc
  import opened Layout
  import opened Image
  import opened Files
  import opened Extents
  import opened Directory
  import opened Paths
  import opened Volume
  import opened Effects
  import opened Moves
  import opened MinimaFS
  import opened Mounting

  datatype Op =
    | MkdirOp(path: string)
    | RmdirOp(path: string)
    | DeleteOp(path: string)
    | CreateOp(path: string, filetype: string, fileformat: string)
    | WriteOp(path: string, seg1: string, seg2: string, filetype: string, fileformat: string)
    | AppendOp(path: string, data: string)

  /** Arguments within the ranges of the formats. */
  ghost predicate OpOk(op: Op, now: string) {
    match op
    case MkdirOp(path) => PathOk(path) && |Name(path)| < MAX_NAME
    case CreateOp(path, filetype, fileformat) => FileArgs(path, filetype, fileformat, now)
    case WriteOp(path, seg1, seg2, filetype, fileformat) => FileArgs(path, filetype, fileformat, now) && SizeOk(|seg1| + |seg2|)
    case _ => true
  }

  /** What the operation does. */
  ghost predicate Effect(op: Op, now: string, total: nat, a: Moment, b: Moment, outcome: Outcome) {
    match op
    case MkdirOp(path) => MkdirEffect(a, b, total, path, outcome)
    case RmdirOp(path) => RmdirEffect(a, b, path, outcome)
    case DeleteOp(path) => DeleteEffect(a, b, path, outcome)
    case CreateOp(path, filetype, fileformat) => CreateEffect(a, b, total, path, filetype, fileformat, now, outcome)
    case WriteOp(path, seg1, seg2, filetype, fileformat) => WriteEffect(a, b, total, path, filetype, fileformat, now, seg1 + seg2, outcome)
    case AppendOp(path, data) => AppendEffect(a, b, total, path, data, now, outcome)
  }

  /** Every read that the operation makes succeeds. */
  ghost predicate CanRead(op: Op, now: string, total: nat, a: Moment) {
    op.AppendOp? ==> ReadsSucceed(a, total, op.path, op.data, now)
  }

  /** The descriptor is as before, or its counts were renewed. */
  ghost predicate SameVolume(a: Moment, b: Moment, now: string) {
    b.storage == a.storage || Recounted(a.storage, b.storage, now)
  }

  /** One operation. */
  method Step(d: Drive, op: Op, now: string) returns (outcome: Outcome)
    requires d.Valid() && Date(now) && OpOk(op, now) && CanRead(op, now, d.alloc.total, d.Now())
    modifies d, d.alloc, d.alloc.ext
    ensures d.alloc.Valid() && d.alloc.total == old(d.alloc.total) && (d.alloc.ext == old(d.alloc.ext) || fresh(d.alloc.ext))
    ensures outcome != Lost ==> d.Valid()
    ensures Effect(op, now, d.alloc.total, old(d.Now()), d.Now(), outcome)
    ensures SameVolume(old(d.Now()), d.Now(), now)
  {
    hide Sound, FileArgs, Clean, MkdirEffect, RmdirEffect, DeleteEffect, CreateEffect, WriteEffect, AppendEffect, ReadsSucceed,
         Reported, Recounted;
    match op {
      case MkdirOp(path) => outcome := d.Mkdir(path, now);
      case RmdirOp(path) => outcome := d.Rmdir(path, now);
      case DeleteOp(path) => outcome := d.Delete(path, now);
      case CreateOp(path, filetype, fileformat) => outcome := d.Create(path, filetype, fileformat, now);
      case WriteOp(path, seg1, seg2, filetype, fileformat) => outcome := d.WriteFile(path, seg1, seg2, filetype, fileformat, now);
      case AppendOp(path, data) => outcome := d.AppendTo(path, data, now);
    }
  }

  /** Whether every block that an append reads is there; one that is refused reads none. */
  method CheckReads(d: Drive, path: string, data: string, now: string) returns (ok: bool)
    requires d.Valid()
    ensures ok <==> ReadsSucceed(d.Now(), d.alloc.total, path, data, now)
  {
    hide WellFormed, Holds, Present, Tracks, Described, Target, Recognised, CString, Covers, Planned, NoSpace, RunFree, PlanReach, Layout.Readable, Reported;
    if data == [] { return true; }
    SoundParts(d.disk, d.storage, d.tree, d.alloc.total, d.alloc.List());
    var found := d.LookUp(path);
    if found == None { return true; }
    var (p, k, folder) := found.value;
    if k == |folder.entries| || folder.entries[k].isDir { return true; }
    var e := folder.entries[k];
    assert Slot(d.tree, p, k) && EntryAt(d.tree, p, k) == e;
    SlotReadable(d.disk, d.tree, d.alloc.total, p, k);
    var plan := PlanAppend(d.disk[e.start], e.count, |data|, now);
    if plan == None || plan.value.count == 0 { return true; }
    var space := d.alloc.FirstFit(plan.value.count);
    if space == NO_BLOCK {
      FullList(d.alloc.List(), d.alloc.total, plan.value.count);
      return true;
    }
    FoundSpace(d.alloc.List(), d.alloc.total, space, plan.value.count);
    ok := AllReadable(d.disk, e.start, BlockCount(plan.value.offset + PlanReach(plan.value)));
  }

  method AllReadable(disk: Disk, start: nat, count: nat) returns (ok: bool)
    ensures ok <==> Layout.Readable(disk, start, count)
  {
    for i := 0 to count
      invariant forall b :: InRun(b, start, i) ==> b in disk && |disk[b]| == BLOCK_SIZE
    {
      assert InRun(start + i, start, count);
      if start + i !in disk || |disk[start + i]| != BLOCK_SIZE { return false; }
    }
    ok := true;
  }

  ghost predicate OpsOk(ops: seq<Op>, clock: seq<string>) {
    |clock| == |ops| && forall i :: 0 <= i < |ops| ==> Date(clock[i]) && OpOk(ops[i], clock[i])
  }

  /** A run of operations, moment by moment: each step has the effect of its operation, and every moment before a
      loss is sound. */
  ghost predicate Traced(ops: seq<Op>, clock: seq<string>, total: nat, trace: seq<Moment>, outcomes: seq<Outcome>) {
    && |outcomes| <= |ops| == |clock| && |trace| == |outcomes| + 1
    && (forall i :: 0 <= i < |outcomes| ==> Effect(ops[i], clock[i], total, trace[i], trace[i + 1], outcomes[i]))
    && (forall i :: 0 <= i < |outcomes| ==> SameVolume(trace[i], trace[i + 1], clock[i]))
    && (forall i :: 0 <= i < |outcomes| - 1 ==> outcomes[i] != Lost)
    && (forall i :: 0 <= i < |trace| && (i == |outcomes| ==> i == 0 || outcomes[i - 1] != Lost) ==> SoundAt(trace[i], total))
  }

  ghost predicate Lasting(outcomes: seq<Outcome>) { outcomes == [] || outcomes[|outcomes| - 1] != Lost }

  lemma TracedMore(ops: seq<Op>, clock: seq<string>, total: nat, trace: seq<Moment>, outcomes: seq<Outcome>, b: Moment, outcome: Outcome)
    requires Traced(ops, clock, total, trace, outcomes) && |outcomes| < |ops| && Lasting(outcomes)
    requires Effect(ops[|outcomes|], clock[|outcomes|], total, trace[|outcomes|], b, outcome)
    requires SameVolume(trace[|outcomes|], b, clock[|outcomes|]) && (outcome != Lost ==> SoundAt(b, total))
    ensures Traced(ops, clock, total, trace + [b], outcomes + [outcome])
  {
    hide Effect, SoundAt, SameVolume;
  }

  /** Operations one after the other, until all are done, one is lost, or an append would read a block that cannot
      be read. */
  method Run(d: Drive, ops: seq<Op>, clock: seq<string>) returns (n: nat, lost: bool, ghost trace: seq<Moment>, ghost outcomes: seq<Outcome>)
    requires d.Valid() && OpsOk(ops, clock)
    modifies d, d.alloc, d.alloc.ext
    ensures d.alloc.Valid() && d.alloc.total == old(d.alloc.total)
    ensures Traced(ops, clock, d.alloc.total, trace, outcomes) && trace[0] == old(d.Now()) && trace[|outcomes|] == d.Now()
    ensures |outcomes| == (if lost then n + 1 else n) && (lost <==> !Lasting(outcomes))
    ensures !lost ==> d.Valid()
    ensures !lost && n < |ops| ==> !CanRead(ops[n], clock[n], d.alloc.total, d.Now())
  {
    hide SoundAt, OpOk, CanRead, Effect, Traced, Date, Drive.Now, SameVolume;
    n, lost, trace, outcomes := 0, false, [d.Now()], [];
    assert Traced(ops, clock, d.alloc.total, trace, outcomes) by { NothingDone(ops, clock, d.alloc.total, d.Now()); }
    while n < |ops|
      invariant n <= |ops| && !lost && d.alloc.total == old(d.alloc.total) && d.Valid()
      invariant d.alloc.ext == old(d.alloc.ext) || fresh(d.alloc.ext)
      invariant Traced(ops, clock, d.alloc.total, trace, outcomes) && |trace| == n + 1 && |outcomes| == n && Lasting(outcomes)
      invariant trace[0] == old(d.Now()) && trace[n] == d.Now()
    {
      var ok := CheckOp(d, ops[n], clock[n]);
      if !ok { return; }
      var outcome := Step(d, ops[n], clock[n]);
      TracedMore(ops, clock, d.alloc.total, trace, outcomes, d.Now(), outcome);
      trace, outcomes := trace + [d.Now()], outcomes + [outcome];
      if outcome == Lost {
        lost := true;
        return;
      }
      n := n + 1;
    }
  }

  method CheckOp(d: Drive, op: Op, now: string) returns (ok: bool)
    requires d.Valid()
    ensures ok <==> CanRead(op, now, d.alloc.total, d.Now())
  {
    ok := true;
    if op.AppendOp? { ok := CheckReads(d, op.path, op.data, now); }
  }

  lemma NothingDone(ops: seq<Op>, clock: seq<string>, total: nat, a: Moment)
    requires |clock| == |ops| && SoundAt(a, total)
    ensures Traced(ops, clock, total, [a], [])
  {
    hide SoundAt, Effect;
  }

  /** Format, any run of operations, and mount again: if nothing was lost, the rescan rebuilds the extent list and the
      free count that the running system kept, and every block but the descriptor is as before. */
  method Lifecycle(device: Disk, size: nat, number: nat, name: string, ops: seq<Op>, clock: seq<string>, now: string)
    returns (live: Drive?, again: Drive?, n: nat, lost: bool, ghost trace: seq<Moment>, ghost outcomes: seq<Outcome>)
    requires size < LONG && number < 256 && Clean(name) && Date(now) && OpsOk(ops, clock)
    ensures live == null <==> size / BLOCK_SIZE < 16
    ensures live != null ==>
              && live.alloc.Valid() && Traced(ops, clock, live.alloc.total, trace, outcomes)
              && trace[0].tree == NewTree(1) && trace[|outcomes|] == live.Now()
              && |outcomes| == (if lost then n + 1 else n) && (lost <==> !Lasting(outcomes))
              && (!lost && n < |ops| ==> !CanRead(ops[n], clock[n], live.alloc.total, live.Now()))
    ensures live != null && !lost ==>
              && live.Valid() && again != null && again.Valid() && again != live && again.tree == live.tree
              && again.alloc.List() == live.alloc.List() && again.alloc.free == live.alloc.free && OnlyZero(live.disk, again.disk)
              && again.storage == live.storage.(lastMounted := now)
  {
    hide Sound, Reported, OpsOk, Clean, Traced, CanRead;
    again, n, lost, trace, outcomes := null, 0, false, [], [];
    live := Format(device, size, number, name, now);
    if live == null { return; }
    n, lost, trace, outcomes := Run(live, ops, clock);
    if !lost {
      again := Remount(live, size, now);
    }
  }

  /** No block is in the runs of two entries. */
  ghost predicate OneOwner(t: Tree) {
    forall f, k, g, j, x :: Slot(t, f, k) && Slot(t, g, j) && (f != g || k != j) && Has(EntryAt(t, f, k), x) ==> !Has(EntryAt(t, g, j), x)
  }

  /** The blocks of entries are recorded as used, and are neither block 0 nor the root. */
  ghost predicate AllOnRecord(a: Moment, total: nat) {
    forall f, k, x :: Slot(a.tree, f, k) && Has(EntryAt(a.tree, f, k), x) ==> OnRecord(a, total, x)
  }

  ghost predicate OnRecord(a: Moment, total: nat, x: int) {
    Covers(a.list, x) && 0 < x < total && x != a.tree.root
  }

  lemma SoundOwner(t: Tree)
    requires Apart(t)
    ensures OneOwner(t)
  {
    hide Slot;
    forall f, k, g, j, x | Slot(t, f, k) && Slot(t, g, j) && (f != g || k != j) && Has(EntryAt(t, f, k), x)
      ensures !Has(EntryAt(t, g, j), x)
    {
      assert Disjoint(EntryAt(t, f, k), EntryAt(t, g, j));
    }
  }

  lemma OnRecordAt(a: Moment, total: nat, f: nat, k: int, x: int)
    requires SlotsOk(a.tree, total) && Tracks(a.list, a.tree) && Slot(a.tree, f, k) && Has(EntryAt(a.tree, f, k), x)
    ensures OnRecord(a, total, x)
  {
    hide Covers;
    assert Inside(EntryAt(a.tree, f, k), a.tree.root, total);
    assert Owned(a.tree, x);
  }

  lemma SoundOnRecord(a: Moment, total: nat)
    requires SlotsOk(a.tree, total) && Tracks(a.list, a.tree)
    ensures AllOnRecord(a, total)
  {
    hide Slot, Has, EntryAt, SlotsOk, Tracks, OnRecord;
    forall f, k, x | Slot(a.tree, f, k) && Has(EntryAt(a.tree, f, k), x) ensures OnRecord(a, total, x) {
      OnRecordAt(a, total, f, k, x);
    }
  }

  ghost predicate DisjointAt(a: Moment, total: nat) { OneOwner(a.tree) && AllOnRecord(a, total) }

  lemma SoundDisjoint(a: Moment, total: nat)
    requires SoundAt(a, total)
    ensures DisjointAt(a, total)
  {
    hide OneOwner, AllOnRecord, SlotsOk, Apart, FoldersOk, Tracks, Holds, Present, Described, DescriptorOk;
    SoundOwner(a.tree);
    SoundOnRecord(a, total);
  }

  /** At every moment of a run before a loss, the runs of distinct entries are disjoint, recorded as used, and off
      block 0 and the root. */
  lemma RunsDisjoint(ops: seq<Op>, clock: seq<string>, total: nat, trace: seq<Moment>, outcomes: seq<Outcome>)
    requires Traced(ops, clock, total, trace, outcomes)
    ensures forall i :: 0 <= i < |trace| && (i == |outcomes| ==> Lasting(outcomes)) ==> DisjointAt(trace[i], total)
  {
    hide Effect, SoundAt, DisjointAt;
    forall i | 0 <= i < |trace| && (i == |outcomes| ==> Lasting(outcomes)) ensures DisjointAt(trace[i], total) {
      SoundDisjoint(trace[i], total);
    }
  }
}
