/** The block allocator of MinimaFS: free space kept as a sorted, merged list of
    used extents. The list is shown to be the canonical form of a plain set of blocks. */
module Extents {

  /** Block numbers are 32-bit and 0xFFFFFFFF means "no block". */
  const MAX_BLOCKS: nat := 0xFFFF_FFFE
  const NO_BLOCK: nat := 0xFFFF_FFFF
  const FIRST_CAPACITY: nat := 256

  datatype Extent = Extent(start: nat, count: nat) {
    function End(): nat { start + count }
    predicate Has(x: int) { start <= x < End() }
  }

  /** Block x is in use according to the list. */
  ghost predicate Covers(s: seq<Extent>, x: int) {
    exists i :: 0 <= i < |s| && s[i].Has(x)
  }

  ghost function Sum(s: seq<Extent>): nat {
    if s == [] then 0 else Sum(s[..|s| - 1]) + s[|s| - 1].count
  }

  /** Sorted, no empty extent, and a gap of at least one block between any two. */
  ghost predicate Canonical(s: seq<Extent>) {
    && (forall i :: 0 <= i < |s| ==> s[i].count > 0)
    && (forall i, j :: 0 <= i < j < |s| ==> s[i].End() < s[j].start)
  }

  ghost predicate Within(s: seq<Extent>, total: nat) {
    forall i :: 0 <= i < |s| ==> s[i].End() <= total
  }

  /** The list is canonical, stays inside the volume, and `free` counts the blocks that it leaves. */
  ghost predicate Good(s: seq<Extent>, total: nat, free: nat) {
    Canonical(s) && Within(s, total) && free + Sum(s) == total
  }

  /** t marks the blocks of s and those in [lo, hi). */
  ghost predicate IsUnion(t: seq<Extent>, s: seq<Extent>, lo: int, hi: int) {
    forall x :: Covers(t, x) <==> Covers(s, x) || lo <= x < hi
  }

  /** t marks the blocks of s except those in [lo, hi). */
  ghost predicate IsDifference(t: seq<Extent>, s: seq<Extent>, lo: int, hi: int) {
    forall x :: Covers(t, x) <==> Covers(s, x) && !(lo <= x < hi)
  }

  // ---- a canonical list is determined by its blocks, and its counts add up to their number ----

  /** The blocks of a run, as a set. */
  ghost function Blocks(start: nat, count: nat): (r: set<int>)
    ensures forall x :: x in r <==> start <= x < start + count
    ensures |r| == count
  {
    if count == 0 then {} else Blocks(start, count - 1) + {start + count - 1}
  }

  lemma DropLast(s: seq<Extent>, x: int)
    requires Canonical(s) && s != []
    ensures Covers(s[..|s| - 1], x) <==> Covers(s, x) && !s[|s| - 1].Has(x)
  {
    var a := s[..|s| - 1];
    if Covers(a, x) {
      var i :| 0 <= i < |a| && a[i].Has(x);
      assert s[i].Has(x);
    }
    if Covers(s, x) && !s[|s| - 1].Has(x) {
      var i :| 0 <= i < |s| && s[i].Has(x);
      assert a[i].Has(x);
    }
  }

  lemma HeadCovered(s: seq<Extent>)
    requires Canonical(s)
    ensures s != [] ==> Covers(s, s[0].start)
  {
    if s != [] { assert s[0].Has(s[0].start); }
  }

  /** `blocks` is the set of blocks of a canonical list: the counts add up to its size. */
  lemma {:induction false} SumIsSize(s: seq<Extent>, blocks: set<int>)
    requires Canonical(s)
    requires forall x :: x in blocks <==> Covers(s, x)
    ensures Sum(s) == |blocks|
  {
    if s == [] {
      forall x ensures x !in blocks { assert !Covers(s, x); }
    } else {
      var rest := LastBlocks(s, blocks);
      SumIsSize(s[..|s| - 1], rest);
    }
  }

  /** The blocks of the last extent, and the rest. */
  lemma LastBlocks(s: seq<Extent>, blocks: set<int>) returns (rest: set<int>)
    requires Canonical(s) && s != [] && forall x :: x in blocks <==> Covers(s, x)
    ensures Canonical(s[..|s| - 1]) && forall x :: x in rest <==> Covers(s[..|s| - 1], x)
    ensures |blocks| == |rest| + s[|s| - 1].count
  {
    hide Covers, Canonical;
    var e := s[|s| - 1];
    var b := Blocks(e.start, e.count);
    rest := blocks - b;
    CanonicalShorter(s);
    forall x ensures x in rest <==> Covers(s[..|s| - 1], x) {
      DropLast(s, x);
    }
    forall x | x in b ensures x in blocks {
      LastCovered(s, x);
    }
    TwoParts(blocks, b);
  }

  lemma CanonicalShorter(s: seq<Extent>)
    requires Canonical(s) && s != []
    ensures Canonical(s[..|s| - 1])
  {
  }

  lemma LastCovered(s: seq<Extent>, x: int)
    requires s != [] && s[|s| - 1].Has(x)
    ensures Covers(s, x)
  {
  }

  lemma TwoParts(all: set<int>, part: set<int>)
    requires part <= all
    ensures |all| == |all - part| + |part|
  {
    assert all == (all - part) + part;
  }

  lemma {:induction false} SumBound(s: seq<Extent>, total: nat)
    requires Canonical(s) && Within(s, total)
    ensures Sum(s) <= total
  {
    if s != [] { SumBound(s[..|s| - 1], s[|s| - 1].start); }
  }

  /** The last extent of one list reaches no further, either way, than the other's. */
  lemma LastExtent(s: seq<Extent>, t: seq<Extent>)
    requires Canonical(s) && Canonical(t) && s != [] && t != []
    requires forall x :: Covers(s, x) <==> Covers(t, x)
    ensures s[|s| - 1].End() <= t[|t| - 1].End()
    ensures s[|s| - 1].End() == t[|t| - 1].End() ==> t[|t| - 1].start <= s[|s| - 1].start
  {
    var e, f := s[|s| - 1], t[|t| - 1];
    assert e.Has(e.End() - 1) && Covers(s, e.End() - 1);
    assert Covers(t, e.End() - 1);
    if e.End() == f.End() && e.start < f.start {
      var x := f.start - 1;
      assert !Covers(t, x);
      assert e.Has(x);
    }
  }

  /** A canonical list is determined by the set of blocks it stands for. */
  lemma {:induction false} CanonicalUnique(s: seq<Extent>, t: seq<Extent>)
    requires Canonical(s) && Canonical(t)
    requires forall x :: Covers(s, x) <==> Covers(t, x)
    ensures s == t
    decreases |s|
  {
    if s == [] || t == [] {
      HeadCovered(s);
      HeadCovered(t);
    } else {
      LastExtent(s, t);
      LastExtent(t, s);
      hide Covers;
      var a, b := s[..|s| - 1], t[..|t| - 1];
      forall x ensures Covers(a, x) <==> Covers(b, x) {
        DropLast(s, x);
        DropLast(t, x);
      }
      CanonicalUnique(a, b);
      assert s == a + [s[|s| - 1]] && t == b + [t[|t| - 1]];
    }
  }

  // ---- splicing: what both list edits have in common ----

  ghost function Splice(s: seq<Extent>, i: nat, j: nat, mid: seq<Extent>): seq<Extent>
    requires i <= j <= |s|
  {
    s[..i] + mid + s[j..]
  }

  /** Overwriting after a gap was opened at i, or after s[i + 1..j] was closed up. */
  lemma SpliceSet(s: seq<Extent>, i: nat, j: nat, x: Extent)
    requires i < j <= |s|
    ensures Splice(s, i + 1, j, [])[i := x] == Splice(s, i, j, [x])
  {
  }

  lemma SpliceGap(s: seq<Extent>, i: nat, x: Extent, y: Extent)
    requires i <= |s|
    ensures Splice(s, i, i, [y])[i := x] == Splice(s, i, i, [x])
  {
  }

  lemma SpliceTwo(s: seq<Extent>, i: nat, x: Extent, y: Extent, z: Extent)
    requires i < |s|
    ensures Splice(s, i + 1, i + 1, [z])[i := x][i + 1 := y] == Splice(s, i, i + 1, [x, y])
  {
  }

  lemma CoversConcat(a: seq<Extent>, b: seq<Extent>, x: int)
    ensures Covers(a + b, x) <==> Covers(a, x) || Covers(b, x)
  {
    if Covers(b, x) {
      var i :| 0 <= i < |b| && b[i].Has(x);
      assert (a + b)[|a| + i].Has(x);
    }
    if Covers(a, x) {
      var i :| 0 <= i < |a| && a[i].Has(x);
      assert (a + b)[i].Has(x);
    }
  }

  lemma {:induction false} SumConcat(a: seq<Extent>, b: seq<Extent>)
    ensures Sum(a + b) == Sum(a) + Sum(b)
  {
    if b == [] {
      assert a + b == a;
    } else {
      SumConcat(a, b[..|b| - 1]);
      assert (a + b)[..|a + b| - 1] == a + b[..|b| - 1];
    }
  }

  lemma SpliceSum(s: seq<Extent>, i: nat, j: nat, mid: seq<Extent>)
    requires i <= j <= |s|
    ensures Sum(Splice(s, i, j, mid)) == Sum(s) - Sum(s[i..j]) + Sum(mid)
  {
    assert s == s[..i] + s[i..j] + s[j..];
    SumConcat(s[..i], s[i..j]);
    SumConcat(s[..i] + s[i..j], s[j..]);
    SumConcat(s[..i], mid);
    SumConcat(s[..i] + mid, s[j..]);
  }

  lemma SpliceCovers(s: seq<Extent>, i: nat, j: nat, mid: seq<Extent>, x: int)
    requires i <= j <= |s|
    ensures Covers(s, x) <==> Covers(s[..i], x) || Covers(s[i..j], x) || Covers(s[j..], x)
    ensures Covers(Splice(s, i, j, mid), x) <==> Covers(s[..i], x) || Covers(mid, x) || Covers(s[j..], x)
  {
    assert s == s[..i] + s[i..j] + s[j..];
    CoversConcat(s[..i], s[i..j], x);
    CoversConcat(s[..i] + s[i..j], s[j..], x);
    CoversConcat(s[..i], mid, x);
    CoversConcat(s[..i] + mid, s[j..], x);
  }

  /** Replacing s[i..j] by extents that lie strictly between their new neighbours. */
  lemma SpliceCanonical(s: seq<Extent>, i: nat, j: nat, mid: seq<Extent>, total: nat)
    requires Canonical(s) && Canonical(mid) && Within(s, total) && Within(mid, total)
    requires i <= j <= |s|
    requires forall m, k :: 0 <= m < |mid| && 0 <= k < i ==> s[k].End() < mid[m].start
    requires forall m, k :: 0 <= m < |mid| && j <= k < |s| ==> mid[m].End() < s[k].start
    ensures Canonical(Splice(s, i, j, mid)) && Within(Splice(s, i, j, mid), total)
  {
  }

  // ---- marking: the extents that touch [lo, hi) become their hull ----

  /** s[i..j] are the first extents that overlap or touch [lo, hi), and [ms, me) is the hull of these and [lo, hi). */
  ghost predicate Touching(s: seq<Extent>, lo: nat, hi: nat, i: nat, j: nat, ms: nat, me: nat) {
    && i <= j <= |s| && lo < hi
    && (forall k :: 0 <= k < i ==> s[k].End() < lo)
    && (forall k :: i <= k < |s| ==> lo <= s[k].End())
    && (forall k :: i <= k < j ==> s[k].start <= hi)
    && ms == (if i < j && s[i].start < lo then s[i].start else lo)
    && me == (if i < j && s[j - 1].End() > hi then s[j - 1].End() else hi)
  }

  /** One more extent joins the hull. Only the first may start before lo, only the last end after hi. */
  lemma TouchNext(s: seq<Extent>, lo: nat, hi: nat, i: nat, j: nat, ms: nat, me: nat)
    requires Canonical(s) && Touching(s, lo, hi, i, j, ms, me)
    requires j < |s| && s[j].start <= me
    ensures me == hi && ms <= lo <= s[j].End() && (if i < j then lo < s[j].start else ms == lo)
    ensures Sum(s[i..j + 1]) == Sum(s[i..j]) + s[j].count
    ensures Touching(s, lo, hi, i, j + 1, if s[j].start < ms then s[j].start else ms, if s[j].End() > me then s[j].End() else me)
  {
    assert s[i..j + 1][..j - i] == s[i..j];
  }

  lemma MergeCovers(s: seq<Extent>, lo: nat, hi: nat, i: nat, j: nat, ms: nat, me: nat, x: int)
    requires Canonical(s) && Touching(s, lo, hi, i, j, ms, me) && ms <= me
    ensures Covers(Splice(s, i, j, [Extent(ms, me - ms)]), x) <==> Covers(s, x) || lo <= x < hi
  {
    var t, mid := s[i..j], [Extent(ms, me - ms)];
    SpliceCovers(s, i, j, mid, x);
    if Covers(t, x) {
      var k :| 0 <= k < |t| && t[k].Has(x);
      assert s[i + k].Has(x);
      assert mid[0].Has(x);
    }
    if ms <= x < lo { assert t[0].Has(x); }
    if hi <= x < me { assert t[j - i - 1].Has(x); }
    if lo <= x < hi { assert mid[0].Has(x); }
  }

  lemma EmptyUnion(s: seq<Extent>, lo: int, hi: int)
    requires hi <= lo
    ensures IsUnion(s, s, lo, hi)
  {
  }

  lemma MergeUnion(s: seq<Extent>, lo: nat, hi: nat, i: nat, j: nat, ms: nat, me: nat)
    requires i <= j <= |s| && Canonical(s) && Touching(s, lo, hi, i, j, ms, me) && ms <= me
    ensures IsUnion(Splice(s, i, j, [Extent(ms, me - ms)]), s, lo, hi)
  {
    var t := Splice(s, i, j, [Extent(ms, me - ms)]);
    hide Covers, Splice, Canonical, Touching;
    forall x ensures Covers(t, x) <==> Covers(s, x) || lo <= x < hi {
      MergeCovers(s, lo, hi, i, j, ms, me, x);
    }
  }

  lemma MergeCanonical(s: seq<Extent>, lo: nat, hi: nat, i: nat, j: nat, ms: nat, me: nat, total: nat)
    requires Canonical(s) && Within(s, total) && hi <= total
    requires Touching(s, lo, hi, i, j, ms, me)
    requires j < |s| ==> me < s[j].start
    ensures ms < me
    ensures Canonical(Splice(s, i, j, [Extent(ms, me - ms)])) && Within(Splice(s, i, j, [Extent(ms, me - ms)]), total)
  {
    SpliceCanonical(s, i, j, [Extent(ms, me - ms)], total);
  }

  lemma Merge(s: seq<Extent>, lo: nat, hi: nat, i: nat, j: nat, ms: nat, me: nat, total: nat, free: nat)
    requires Good(s, total, free) && hi <= total
    requires i <= j <= |s| && Touching(s, lo, hi, i, j, ms, me)
    requires j < |s| ==> me < s[j].start
    ensures ms < me
    ensures IsUnion(Splice(s, i, j, [Extent(ms, me - ms)]), s, lo, hi)
    ensures 0 <= free - ((me - ms) - Sum(s[i..j]))
    ensures Good(Splice(s, i, j, [Extent(ms, me - ms)]), total, free - ((me - ms) - Sum(s[i..j])))
  {
    hide Covers, IsUnion, Canonical, Within, Touching, Splice;
    MergeCanonical(s, lo, hi, i, j, ms, me, total);
    MergeUnion(s, lo, hi, i, j, ms, me);
    var mid := [Extent(ms, me - ms)];
    assert mid[..0] == [];
    SpliceSum(s, i, j, mid);
    SumBound(Splice(s, i, j, mid), total);
  }

  // ---- freeing: one extent loses its part in [lo, hi) ----

  /** What is left of an extent once [lo, hi) is taken out of it. */
  ghost function Remainder(e: Extent, lo: nat, hi: nat): seq<Extent> {
    (if e.start < lo then [Extent(e.start, lo - e.start)] else []) +
    (if e.End() > hi then [Extent(hi, e.End() - hi)] else [])
  }

  /** The number of blocks that an extent shares with [lo, hi), when they overlap. */
  ghost function Overlap(e: Extent, lo: nat, hi: nat): int {
    (if e.End() < hi then e.End() else hi) - (if e.start > lo then e.start else lo)
  }

  lemma RemainderSum(e: Extent, lo: nat, hi: nat)
    requires lo < hi && lo < e.End() && e.start < hi
    ensures Sum(Remainder(e, lo, hi)) == e.count - Overlap(e, lo, hi)
    ensures Sum([e]) == e.count
  {
    var a := if e.start < lo then [Extent(e.start, lo - e.start)] else [];
    var b := if e.End() > hi then [Extent(hi, e.End() - hi)] else [];
    SumConcat(a, b);
    assert forall x: Extent :: [x][..0] == [];
  }

  lemma CutCovers(s: seq<Extent>, lo: nat, hi: nat, i: nat, x: int)
    requires Canonical(s) && i < |s| && lo < hi
    requires lo < s[i].End() && s[i].start < hi
    ensures Covers(Splice(s, i, i + 1, Remainder(s[i], lo, hi)), x) <==>
            Covers(s, x) && !(s[i].Has(x) && lo <= x < hi)
  {
    var e, mid := s[i], Remainder(s[i], lo, hi);
    SpliceCovers(s, i, i + 1, mid, x);
    if e.Has(x) {
      assert s[i..i + 1][0].Has(x);
      assert !Covers(s[..i], x) && !Covers(s[i + 1..], x);
      if x < lo { assert mid[0].Has(x); }
      if hi <= x { assert mid[|mid| - 1].Has(x); }
    }
  }

  /** Blocks of s[i] inside [lo, hi) are dropped; every other block stays as it was. */
  ghost predicate IsCut(t: seq<Extent>, s: seq<Extent>, i: nat, lo: nat, hi: nat)
    requires i < |s|
  {
    forall x :: Covers(t, x) <==> Covers(s, x) && !(s[i].Has(x) && lo <= x < hi)
  }

  lemma CutIsCut(s: seq<Extent>, lo: nat, hi: nat, i: nat)
    requires Canonical(s) && i < |s| && lo < hi
    requires lo < s[i].End() && s[i].start < hi
    ensures IsCut(Splice(s, i, i + 1, Remainder(s[i], lo, hi)), s, i, lo, hi)
  {
    var t := Splice(s, i, i + 1, Remainder(s[i], lo, hi));
    hide Covers, Splice, Canonical;
    forall x ensures Covers(t, x) <==> Covers(s, x) && !(s[i].Has(x) && lo <= x < hi) {
      CutCovers(s, lo, hi, i, x);
    }
  }

  lemma Cut(s: seq<Extent>, lo: nat, hi: nat, i: nat, total: nat, free: nat)
    requires Good(s, total, free) && i < |s| && lo < hi
    requires lo < s[i].End() && s[i].start < hi
    ensures Good(Splice(s, i, i + 1, Remainder(s[i], lo, hi)), total, free + Overlap(s[i], lo, hi))
    ensures IsCut(Splice(s, i, i + 1, Remainder(s[i], lo, hi)), s, i, lo, hi)
  {
    hide Covers, IsCut;
    var mid := Remainder(s[i], lo, hi);
    SpliceCanonical(s, i, i + 1, mid, total);
    CutIsCut(s, lo, hi, i);
    hide Canonical, Within, Splice, Remainder;
    assert s[i..i + 1] == [s[i]];
    RemainderSum(s[i], lo, hi);
    SpliceSum(s, i, i + 1, mid);
  }

  // ---- the allocator ----

  /** The whole run lies in the volume and none of its blocks is in use. */
  ghost predicate RunFree(s: seq<Extent>, total: nat, start: int, count: nat) {
    start + count <= total && forall x :: start <= x < start + count ==> !Covers(s, x)
  }

  /** cursor is past every extent before i, and the gap from it to extent i (or the end) is big enough. */
  lemma FitHere(s: seq<Extent>, total: nat, i: nat, cursor: nat, count: nat)
    requires Canonical(s) && Within(s, total) && i <= |s|
    requires forall k :: 0 <= k < i ==> s[k].End() <= cursor
    requires cursor + count <= if i < |s| then s[i].start else total
    ensures RunFree(s, total, cursor, count)
  {
  }

  /** A run cannot start in the gap before extent i when that gap is too small, nor inside extent i. */
  lemma NoFitUpTo(s: seq<Extent>, total: nat, i: nat, cursor: nat, count: nat)
    requires Canonical(s) && i < |s| && count > 0
    requires cursor + count > s[i].start
    ensures forall b :: cursor <= b < s[i].End() ==> !RunFree(s, total, b, count)
  {
    forall b | cursor <= b < s[i].End() ensures !RunFree(s, total, b, count) {
      var x := if b < s[i].start then s[i].start else b;
      assert s[i].Has(x) && Covers(s, x);
    }
  }

  // ---- what the loop of block_free_run keeps ----

  /** Outside [lo, hi) the two lists agree, and inside t has nothing that s lacks. */
  ghost predicate AgreeOutside(t: seq<Extent>, s: seq<Extent>, lo: nat, hi: nat) {
    forall x :: (Covers(t, x) ==> Covers(s, x)) && (Covers(s, x) && !(lo <= x < hi) ==> Covers(t, x))
  }

  /** No extent of the list meets [lo, hi). */
  ghost predicate Clear(s: seq<Extent>, lo: nat, hi: nat) {
    forall k :: 0 <= k < |s| ==> s[k].End() <= lo || hi <= s[k].start
  }

  /** The first i extents of t are done with; `done` says that all are. */
  ghost predicate Cutting(t: seq<Extent>, s: seq<Extent>, lo: nat, hi: nat, i: nat, done: bool) {
    i <= |t| && AgreeOutside(t, s, lo, hi) && Clear(t[..i], lo, hi) && (done ==> Clear(t, lo, hi))
  }

  lemma SkipStep(t: seq<Extent>, s: seq<Extent>, lo: nat, hi: nat, i: nat)
    requires Canonical(t) && i < |t| && Cutting(t, s, lo, hi, i, false)
    ensures t[i].End() <= lo ==> Cutting(t, s, lo, hi, i + 1, false)
    ensures t[i].start >= hi ==> Cutting(t, s, lo, hi, i, true)
  {
    hide AgreeOutside;
    assert forall k :: 0 <= k < i ==> t[k] == t[..i][k];
  }

  /** Cutting extent i; nothing is left to do once it reached past hi. */
  lemma CutStep(t: seq<Extent>, s: seq<Extent>, lo: nat, hi: nat, i: nat)
    requires Canonical(t) && lo < hi && i < |t| && Cutting(t, s, lo, hi, i, false)
    requires lo < t[i].End() && t[i].start < hi
    ensures Cutting(Splice(t, i, i + 1, Remainder(t[i], lo, hi)), s, lo, hi,
                    if t[i].start < lo then i + 1 else i, t[i].End() > hi)
  {
    var u := Splice(t, i, i + 1, Remainder(t[i], lo, hi));
    CutIsCut(t, lo, hi, i);
    CutAgrees(u, t, s, lo, hi, i);
    hide AgreeOutside, IsCut, Covers;
    assert u[..i] == t[..i];
    assert forall k :: 0 <= k < i ==> u[k] == t[..i][k];
  }

  lemma CutAgrees(u: seq<Extent>, t: seq<Extent>, s: seq<Extent>, lo: nat, hi: nat, i: nat)
    requires i < |t| && AgreeOutside(t, s, lo, hi) && IsCut(u, t, i, lo, hi)
    ensures AgreeOutside(u, s, lo, hi)
  {
    hide Covers;
  }

  lemma ClearDone(t: seq<Extent>, s: seq<Extent>, lo: nat, hi: nat, i: nat, done: bool)
    requires Cutting(t, s, lo, hi, i, done) && (i == |t| || done)
    ensures IsDifference(t, s, lo, hi)
  {
    assert t[..|t|] == t;
    assert forall x :: lo <= x < hi ==> !Covers(t, x);
  }

  /** minimafs_block_alloc_t: `ext[..n]` is the list, `ext.Length` its capacity. */
  class Allocator {
    var ext: array<Extent>
    var n: nat
    var total: nat
    var free: nat

    ghost predicate Valid()
      reads this, ext
    {
      && n <= ext.Length
      && total <= MAX_BLOCKS
      && Good(ext[..n], total, free)
    }

    ghost function List(): seq<Extent>
      requires n <= ext.Length
      reads this, ext
    {
      ext[..n]
    }

    constructor (totalBlocks: nat)
      requires totalBlocks <= MAX_BLOCKS
      ensures Valid() && fresh(ext)
      ensures total == totalBlocks && free == totalBlocks && List() == []
    {
      ext := new Extent[0];
      n := 0;
      total := totalBlocks;
      free := totalBlocks;
    }

    /** block_alloc_init: forget every extent, keep the array. */
    method Init(totalBlocks: nat)
      requires n <= ext.Length
      requires totalBlocks <= MAX_BLOCKS
      modifies this
      ensures Valid() && ext == old(ext)
      ensures total == totalBlocks && free == totalBlocks && List() == []
    {
      n := 0;
      total := totalBlocks;
      free := totalBlocks;
    }

    /** ba_reserve: doubles the capacity until it holds `need` extents. */
    method Reserve(need: nat)
      requires n <= ext.Length
      modifies this`ext
      ensures need <= ext.Length && n <= ext.Length
      ensures ext == old(ext) || fresh(ext)
      ensures List() == old(List())
    {
      if need <= ext.Length { return; }
      var cap := if ext.Length > 0 then ext.Length else FIRST_CAPACITY;
      while cap < need
        invariant ext == old(ext) && ext.Length <= cap && 0 < cap
        decreases need - cap
      {
        cap := cap * 2;
      }
      var grown := new Extent[cap](_ => Extent(0, 0));
      for k := 0 to n
        invariant ext == old(ext) && ext[..n] == old(ext[..n])
        invariant forall m :: 0 <= m < k ==> grown[m] == ext[m]
      {
        grown[k] := ext[k];
      }
      ext := grown;
    }

    /** memmove(&ext[dst], &ext[src], len). */
    method MoveExtents(dst: nat, src: nat, len: nat)
      requires dst + len <= ext.Length && src + len <= ext.Length
      modifies ext
      ensures ext[..] == old(ext[..dst]) + old(ext[src..src + len]) + old(ext[dst + len..])
    {
      forall k | 0 <= k < len {
        ext[dst + k] := ext[src + k];
      }
    }

    /** First loop of ba_mark_used_locked: the first extent that ends at or after s. */
    method FirstTouching(s: nat, ghost e: nat) returns (i: nat)
      requires Valid() && s < e
      ensures i <= n && Touching(List(), s, e, i, i, s, e)
    {
      hide Covers, Sum;
      i := 0;
      while i < n && ext[i].End() < s
        invariant 0 <= i <= n
        invariant forall k :: 0 <= k < i ==> ext[k].End() < s
      {
        i := i + 1;
      }
      assert forall k :: i <= k < n ==> List()[i].End() <= List()[k].End();
    }

    /** Second loop: grow the hull [ms, me); `already` counts the blocks of [s, e) in use. */
    method GrowHull(s: nat, e: nat, i: nat) returns (j: nat, ms: nat, me: nat, already: nat)
      requires Valid() && s < e
      requires i <= n && Touching(List(), s, e, i, i, s, e)
      ensures i <= j <= n && Touching(List(), s, e, i, j, ms, me)
      ensures j < n ==> me < List()[j].start
      ensures me - ms == (e - s) + Sum(List()[i..j]) - already
    {
      hide Covers, Canonical, Within, Touching;
      ms, me, already, j := s, e, 0, i;
      ghost var l := List();
      assert l[i..i] == [];
      while j < n && ext[j].start <= me
        invariant i <= j <= n
        invariant Touching(l, s, e, i, j, ms, me)
        invariant me - ms == (e - s) + Sum(l[i..j]) - already
      {
        var xs, xe := ext[j].start, ext[j].End();
        TouchNext(l, s, e, i, j, ms, me);
        var os := if xs > s then xs else s;
        var oe := if xe < e then xe else e;
        if oe > os { already := already + (oe - os); }
        if xs < ms { ms := xs; }
        if xe > me { me := xe; }
        j := j + 1;
      }
    }

    /** Shifts ext[i..] one place up. */
    method OpenGap(i: nat)
      requires i <= n <= ext.Length
      modifies this`ext, this`n, ext
      ensures n == old(n) + 1 && n <= ext.Length && (ext == old(ext) || fresh(ext))
      ensures List() == Splice(old(List()), i, i, [ext[i]])
    {
      Reserve(n + 1);
      ghost var l := List();
      ghost var before := ext[..];
      MoveExtents(i + 1, i, n - i);
      GapOpened(before, ext[..], i, n);
      n := n + 1;
    }

    static lemma GapOpened(before: seq<Extent>, after: seq<Extent>, i: nat, n: nat)
      requires i <= n < |before| && after == before[..i + 1] + before[i..n] + before[n + 1..]
      ensures after[..n + 1] == Splice(before[..n], i, i, [after[i]])
    {
    }

    /** Shifts ext[i + d..] down over ext[i..i + d]. */
    method CloseGap(i: nat, d: nat)
      requires i + d <= n <= ext.Length
      modifies this`n, ext
      ensures n == old(n) - d
      ensures List() == Splice(old(List()), i, i + d, [])
    {
      MoveExtents(i, i + d, n - i - d);
      n := n - d;
    }

    method SetExtent(i: nat, x: Extent)
      requires i < n <= ext.Length
      modifies ext
      ensures List() == old(List())[i := x]
    {
      ext[i] := x;
    }

    /** The tail of ba_mark_used_locked: ext[i..j] becomes the single extent x. */
    method ReplaceRange(i: nat, j: nat, x: Extent)
      requires i <= j <= n <= ext.Length
      modifies this`ext, this`n, ext
      ensures n <= ext.Length && (ext == old(ext) || fresh(ext))
      ensures List() == Splice(old(List()), i, j, [x])
    {
      ghost var l := List();
      if j == i {
        OpenGap(i);
        SpliceGap(l, i, x, ext[i]);
      } else {
        SpliceSet(l, i, j, x);
        if j > i + 1 {
          CloseGap(i + 1, j - i - 1);
        }
      }
      SetExtent(i, x);
    }

    /** ba_mark_used_locked: set union, clipped to the volume. */
    method MarkUsed(start: nat, count: nat)
      requires Valid()
      modifies this, ext
      ensures Valid() && total == old(total)
      ensures ext == old(ext) || fresh(ext)
      ensures IsUnion(List(), old(List()), start, if start + count < total then start + count else total)
    {
      hide Good, Canonical, Within, Covers, Sum, Splice, Touching, IsUnion;
      if count == 0 || start >= total {
        EmptyUnion(List(), start, if start + count < total then start + count else total);
        return;
      }
      var s, e := start, start + count;
      if e > total { e := total; }
      var i := FirstTouching(s, e);
      var j, ms, me, already := GrowHull(s, e, i);
      Merge(List(), s, e, i, j, ms, me, total, free);
      var newly := (e - s) - already;
      free := if free > newly then free - newly else 0;
      ReplaceRange(i, j, Extent(ms, me - ms));
    }
  
    /** block_alloc_run: first fit, sound and complete. Block 0 is never handed out. */
    method AllocRun(count: nat) returns (found: nat)
      requires Valid()
      modifies this, ext
      ensures Valid() && total == old(total)
      ensures ext == old(ext) || fresh(ext)
      ensures found == NO_BLOCK ==>
                List() == old(List()) && free == old(free) &&
                (count == 0 || forall b :: 1 <= b ==> !RunFree(List(), total, b, count))
      ensures found != NO_BLOCK ==>
                count > 0 && 1 <= found &&
                RunFree(old(List()), total, found, count) &&
                (forall b :: 1 <= b < found ==> !RunFree(old(List()), total, b, count)) &&
                IsUnion(List(), old(List()), found, found + count)
    {
      found := NO_BLOCK;
      if count == 0 { return; }
      found := FirstFit(count);
      if found != NO_BLOCK {
        MarkUsed(found, count);
      }
    }

    /** The search loop of block_alloc_run. */
    method FirstFit(count: nat) returns (found: nat)
      requires Valid() && count > 0
      ensures found == NO_BLOCK ==> forall b :: 1 <= b ==> !RunFree(List(), total, b, count)
      ensures found != NO_BLOCK ==>
                1 <= found && RunFree(List(), total, found, count) &&
                forall b :: 1 <= b < found ==> !RunFree(List(), total, b, count)
    {
      var cursor := 1;
      for i := 0 to n + 1
        invariant 1 <= cursor
        invariant i == n + 1 ==> cursor + count > total
        invariant forall k :: 0 <= k < i && k < n ==> ext[k].End() <= cursor
        invariant forall b :: 1 <= b < cursor ==> !RunFree(List(), total, b, count)
      {
        var gapEnd := if i < n then ext[i].start else total;
        if gapEnd > cursor && gapEnd - cursor >= count {
          FitHere(List(), total, i, cursor, count);
          return cursor;
        }
        if i < n {
          NoFitUpTo(List(), total, i, cursor, count);
          var xe := ext[i].End();
          if xe > cursor { cursor := xe; }
        }
      }
      return NO_BLOCK;
    }

    /** The list edits of block_free_run for an extent that meets [s, e). */
    method CutList(i: nat, s: nat, e: nat)
      requires i < n <= ext.Length && s < e
      requires s < ext[i].End() && ext[i].start < e
      modifies this`ext, this`n, ext
      ensures n <= ext.Length && (ext == old(ext) || fresh(ext))
      ensures n == old(n - 1 + (if ext[i].start < s then 1 else 0) + (if ext[i].End() > e then 1 else 0))
      ensures List() == Splice(old(List()), i, i + 1, Remainder(old(ext[i]), s, e))
    {
      ghost var l := List();
      var xs, xe := ext[i].start, ext[i].End();
      var left, right := xs < s, xe > e;
      if left && right {
        OpenGap(i + 1);
        SpliceTwo(l, i, Extent(xs, s - xs), Extent(e, xe - e), ext[i + 1]);
        SetExtent(i, Extent(xs, s - xs));
        SetExtent(i + 1, Extent(e, xe - e));
      } else if left {
        SpliceSet(l, i, i + 1, Extent(xs, s - xs));
        SetExtent(i, Extent(xs, s - xs));
      } else if right {
        SpliceSet(l, i, i + 1, Extent(e, xe - e));
        SetExtent(i, Extent(e, xe - e));
      } else {
        CloseGap(i, 1);
      }
    }

    /** The body of block_free_run for an extent that meets [s, e). */
    method CutAt(i: nat, s: nat, e: nat) returns (next: nat, stop: bool)
      requires Valid() && s < e
      requires i < n && s < ext[i].End() && ext[i].start < e
      modifies this, ext
      ensures Valid() && total == old(total) && (ext == old(ext) || fresh(ext))
      ensures List() == Splice(old(List()), i, i + 1, Remainder(old(ext[i]), s, e))
      ensures next == (if old(ext[i]).start < s then i + 1 else i)
      ensures next <= n && (stop || n - next < old(n) - i)
      ensures stop <==> old(ext[i]).End() > e
    {
      hide Good, Covers, Sum, IsCut, Splice, Remainder, Canonical, Within;
      Cut(List(), s, e, i, total, free);
      var xs, xe := ext[i].start, ext[i].End();
      var os := if xs > s then xs else s;
      var oe := if xe < e then xe else e;
      free := free + (oe - os);
      next, stop := if xs < s then i + 1 else i, xe > e;
      CutList(i, s, e);
    }

    /** block_free_run: set difference. */
    method FreeRun(block: nat, count: nat)
      requires Valid()
      modifies this, ext
      ensures Valid() && total == old(total)
      ensures ext == old(ext) || fresh(ext)
      ensures IsDifference(List(), old(List()), block, block + count)
    {
      if count == 0 { return; }
      var s, e := block, block + count;
      ghost var l := List();
      assert Cutting(l, l, s, e, 0, false);
      hide Cutting, IsDifference, Sum, Splice, Remainder;
      var i, done := 0, false;
      while i < n && !done
        invariant 0 <= i <= n && Valid() && total == old(total)
        invariant ext == old(ext) || fresh(ext)
        invariant Cutting(List(), l, s, e, i, done)
        decreases !done, n - i
      {
        SkipStep(List(), l, s, e, i);
        var xs, xe := ext[i].start, ext[i].End();
        if xe <= s {
          i := i + 1;
        } else if xs >= e {
          done := true;
        } else {
          CutStep(List(), l, s, e, i);
          i, done := CutAt(i, s, e);
        }
      }
      ClearDone(List(), l, s, e, i, done);
    }
  }
}
