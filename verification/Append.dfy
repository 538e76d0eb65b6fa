/** The copying half of minimafs_append_file: the old data is copied, block by block and through its own one-block
    cache, into a fresh run behind a new header, followed by the new data and the footer. */
module Append {
  import opened Text
  import opened Layout
  import opened Stream

  /** minimafs_old_data_reader_t. Of the data, `reach` bytes will be read, and `count` blocks hold them. */
  class OldDataReader {
    const start: nat
    const count: nat
    const offset: nat
    const len: nat
    ghost const reach: nat
    var pos: nat
    var cachedBlock: int
    var buffer: string

    /** Every read succeeds. */
    ghost predicate Ready(disk: Disk)
      reads this
    {
      && Readable(disk, start, count) && offset + reach <= count * BLOCK_SIZE && pos <= reach <= len
      && (cachedBlock != NONE ==> 0 <= cachedBlock < count && |buffer| == BLOCK_SIZE)
    }

    /** The cache is what the disk holds. */
    ghost predicate Fresh(disk: Disk)
      reads this
    {
      cachedBlock >= 0 ==> start + cachedBlock in disk && buffer == disk[start + cachedBlock]
    }

    constructor (disk: Disk, start: nat, count: nat, offset: nat, len: nat, ghost reach: nat)
      requires Readable(disk, start, count) && offset + reach <= count * BLOCK_SIZE && reach <= len
      ensures Ready(disk) && Fresh(disk) && pos == 0
      ensures this.start == start && this.count == count && this.offset == offset && this.len == len && this.reach == reach
    {
      this.start, this.count, this.offset, this.len, this.reach := start, count, offset, len, reach;
      pos, cachedBlock, buffer := 0, NONE, [];
    }

    method Load(disk: Disk, bi: nat)
      requires Ready(disk) && bi < count
      modifies this`cachedBlock, this`buffer
      ensures Ready(disk) && cachedBlock == bi
      ensures old(Fresh(disk)) ==> Fresh(disk)
    {
      assert InRun(start + bi, start, count);
      if bi != cachedBlock {
        buffer := disk[start + bi];
        cachedBlock := bi;
      }
    }

    /** odr_read: the next bytes of the old data, as the disk and the cache hold them. */
    method Read(disk: Disk, n: nat) returns (out: string)
      requires Ready(disk) && (pos + n <= reach || reach == len)
      modifies this`pos, this`cachedBlock, this`buffer
      ensures Ready(disk) && pos == old(pos) + |out| && |out| == if n < len - old(pos) then n else len - old(pos)
      ensures old(Fresh(disk)) ==> Fresh(disk) && out == Bytes(disk, start, count, offset + old(pos), |out|)
    {
      hide Readable;
      out := [];
      var left: nat := n;
      ghost var p0, wasFresh := pos, Fresh(disk);
      assert Bytes(disk, start, count, offset + p0, 0) == [];
      while left > 0 && pos < len
        invariant Ready(disk) && pos == p0 + |out| && left + |out| == n
        invariant wasFresh ==> Fresh(disk) && out == Bytes(disk, start, count, offset + p0, |out|)
        decreases left
      {
        var fp := offset + pos;
        var bi, off := fp / BLOCK_SIZE, fp % BLOCK_SIZE;
        BlockOfByte(fp, count);
        Load(disk, bi);
        var cp := if BLOCK_SIZE - off < left then BLOCK_SIZE - off else left;
        if cp > len - pos { cp := len - pos; }
        CacheSlice(disk, start, count, fp, cp);
        BytesSplit(disk, start, count, offset + p0, |out|, cp);
        out := out + buffer[off..off + cp];
        left := left - cp;
        pos := pos + cp;
      }
    }
  }

  /** Two disks hold the same blocks in a run. */
  ghost predicate SameRun(before: Disk, disk: Disk, start: nat, count: nat) {
    forall b :: InRun(b, start, count) ==> b in before && b in disk && disk[b] == before[b]
  }

  /** Bytes of a run that did not change. */
  lemma SameBytes(before: Disk, disk: Disk, start: nat, count: nat, from: nat, len: nat)
    requires Readable(before, start, count) && from + len <= count * BLOCK_SIZE && SameRun(before, disk, start, count)
    ensures Readable(disk, start, count)
    ensures Bytes(disk, start, count, from, len) == Bytes(before, start, count, from, len)
  {
    forall b | InRun(b, start, count) ensures b in disk && |disk[b]| == BLOCK_SIZE {
      assert b in before;
    }
    var x, y := Bytes(disk, start, count, from, len), Bytes(before, start, count, from, len);
    forall k | 0 <= k < len ensures x[k] == y[k] {
      BlockOfByte(from + k, count);
      var b := start + (from + k) / BLOCK_SIZE;
      assert InRun(b, start, count);
      assert x[k] == ByteAt(disk, start, count, from + k) && y[k] == ByteAt(before, start, count, from + k);
    }
  }

  // ---- the four-segment loop ----

  /** Where the loop is: the segment (header, old data, new data, footer, done), the position in header or
      footer, and the position in the new data. */
  datatype Cursor = Cursor(seg: nat, segPos: nat, dataPos: nat)

  /** The text is what was emitted so far; `copied` is the part that came from the reader. */
  ghost predicate Emitted(c: Cursor, copied: string, text: string, header: string, len: nat, data: string) {
    && c.seg <= 4 && |copied| <= len && (c.seg >= 2 ==> |copied| == len)
    && (c.seg == 0 ==> c.segPos <= |header| && text == header[..c.segPos] && copied == [] && c.dataPos == 0)
    && (c.seg == 1 ==> text == header + copied && c.dataPos == 0)
    && (c.seg == 2 ==> c.dataPos <= |data| && text == header + copied + data[..c.dataPos])
    && (c.seg == 3 ==> c.segPos < FOOTER_SIZE == |FOOTER| && text == header + copied + data + FOOTER[..c.segPos])
    && (c.seg == 4 ==> text == header + copied + data + FOOTER)
  }

  /** The block so far: the text from `base` on, then zeros. */
  ghost predicate Partial(block: string, text: string, base: nat) {
    && |block| == BLOCK_SIZE && base <= |text| <= base + BLOCK_SIZE
    && (forall k :: base <= k < |text| ==> block[k - base] == text[k])
    && (forall k :: |text| - base <= k < BLOCK_SIZE ==> block[k] == NUL)
  }

  lemma PartialWhole(block: string, text: string, i: nat)
    requires Partial(block, text, i * BLOCK_SIZE)
    ensures block == BlockOf(text, i)
  {
    forall k | 0 <= k < BLOCK_SIZE ensures block[k] == At(text, i * BLOCK_SIZE + k) {
      assert i * BLOCK_SIZE + k < |text| ==> block[i * BLOCK_SIZE + k - i * BLOCK_SIZE] == text[i * BLOCK_SIZE + k];
    }
  }

  /** memcpy of n bytes behind what is in the block. */
  method Put(block: array<char>, at: nat, src: string, from: nat, n: nat, ghost text: string, ghost base: nat)
    requires Partial(block[..], text, base) && base + at == |text| && at + n <= BLOCK_SIZE && from + n <= |src|
    modifies block
    ensures Partial(block[..], text + src[from..from + n], base)
  {
    forall k | 0 <= k < n {
      block[at + k] := src[from + k];
    }
    ghost var all := text + src[from..from + n];
    forall k | base <= k < |all| ensures block[k - base] == all[k] {
      if k < |text| {
        assert old(block[..])[k - base] == text[k];
      } else {
        assert all[k] == src[from..from + n][k - |text|];
      }
    }
  }

  lemma SliceNext(s: string, a: nat, n: nat)
    requires a + n <= |s|
    ensures s[..a] + s[a..a + n] == s[..a + n]
  {
  }

  lemma Behind(a: string, b: string, c: string)
    ensures a + b + c == a + (b + c)
    ensures a + [] == a
  {
  }

  function Min(a: nat, b: nat): nat { if a < b then a else b }

  /** Segment 0. */
  method PutHeader(header: string, ghost data: string, ghost len: nat, block: array<char>, c: Cursor, at: nat,
                   ghost text: string, ghost base: nat)
    returns (c': Cursor, at': nat, ghost text': string)
    requires c.seg == 0 && at < BLOCK_SIZE && base + at == |text|
    requires Emitted(c, [], text, header, len, data) && Partial(block[..], text, base)
    modifies block
    ensures at' <= BLOCK_SIZE && base + at' == |text'| && text <= text'
    ensures Emitted(c', [], text', header, len, data) && Partial(block[..], text', base)
    ensures c'.seg == 1 || (c'.seg == 0 && at < at')
  {
    hide Partial;
    var cp := Min(BLOCK_SIZE - at, |header| - c.segPos);
    Put(block, at, header, c.segPos, cp, text, base);
    SliceNext(header, c.segPos, cp);
    text' := text + header[c.segPos..c.segPos + cp];
    at' := at + cp;
    c' := if c.segPos + cp >= |header| then Cursor(1, 0, c.dataPos) else Cursor(0, c.segPos + cp, c.dataPos);
    assert header[..|header|] == header;
    Behind(header, [], []);
  }

  /** Segment 1, through the reader. */
  method PutOld(r: OldDataReader, disk: Disk, ghost header: string, ghost data: string, block: array<char>, c: Cursor, at: nat,
                ghost copied: string, ghost text: string, ghost base: nat)
    returns (c': Cursor, at': nat, ghost copied': string, ghost text': string)
    requires r.Ready(disk) && c.seg == 1 && at < BLOCK_SIZE && base + at == |text| && |copied| == r.pos
    requires Suffices(r, header, base + BLOCK_SIZE)
    requires Emitted(c, copied, text, header, r.len, data) && Partial(block[..], text, base)
    modifies r`pos, r`cachedBlock, r`buffer, block
    ensures r.Ready(disk) && |copied'| == r.pos
    ensures at' <= BLOCK_SIZE && base + at' == |text'| && text <= text'
    ensures Emitted(c', copied', text', header, r.len, data) && Partial(block[..], text', base)
    ensures c'.seg == 2 || (c'.seg == 1 && at < at')
    ensures old(r.Fresh(disk)) && Follows(disk, r, copied) ==> r.Fresh(disk) && Follows(disk, r, copied')
  {
    hide Partial, OldDataReader.Ready, OldDataReader.Fresh, Follows;
    ReaderBound(r, disk);
    if r.pos >= r.len {
      assert data[..0] == [];
      Behind(header + copied, [], []);
      return Cursor(2, 0, c.dataPos), at, copied, text;
    }
    var cp := Min(BLOCK_SIZE - at, r.len - r.pos);
    ghost var p := r.pos;
    var got := r.Read(disk, cp);
    Put(block, at, got, 0, cp, text, base);
    assert got[0..cp] == got;
    copied', text' := copied + got, text + got;
    Behind(header, copied, got);
    at' := at + cp;
    c' := if r.pos >= r.len then Cursor(2, 0, c.dataPos) else c;
    assert data[..0] == [];
    Behind(header + copied', [], []);
    FollowsMore(disk, r, copied, got, p);
  }

  /** What the reader can reach is all of the old data in the first n bytes of the image. */
  ghost predicate Suffices(r: OldDataReader, header: string, n: nat) { r.reach == r.len || n <= |header| + r.reach }

  lemma ReaderBound(r: OldDataReader, disk: Disk)
    requires r.Ready(disk)
    ensures r.pos <= r.reach <= r.len
  {
  }

  /** What was copied is what the disk holds. */
  ghost predicate Follows(disk: Disk, r: OldDataReader, copied: string) {
    Readable(disk, r.start, r.count) && r.offset + r.reach <= r.count * BLOCK_SIZE && |copied| <= r.reach &&
    copied == Bytes(disk, r.start, r.count, r.offset, |copied|)
  }

  lemma FollowsMore(disk: Disk, r: OldDataReader, copied: string, got: string, p: nat)
    requires r.Ready(disk) && p == |copied| && p + |got| <= r.reach
    ensures Follows(disk, r, copied) && got == Bytes(disk, r.start, r.count, r.offset + p, |got|) ==> Follows(disk, r, copied + got)
  {
    BytesSplit(disk, r.start, r.count, r.offset, p, |got|);
  }

  /** Segment 2. */
  method PutNew(ghost header: string, data: string, ghost len: nat, block: array<char>, c: Cursor, at: nat,
                ghost copied: string, ghost text: string, ghost base: nat)
    returns (c': Cursor, at': nat, ghost text': string)
    requires c.seg == 2 && at < BLOCK_SIZE && base + at == |text|
    requires Emitted(c, copied, text, header, len, data) && Partial(block[..], text, base)
    modifies block
    ensures at' <= BLOCK_SIZE && base + at' == |text'| && text <= text'
    ensures Emitted(c', copied, text', header, len, data) && Partial(block[..], text', base)
    ensures c'.seg == 3 || (c'.seg == 2 && at < at')
  {
    hide Partial;
    assert data[..|data|] == data && FOOTER[..0] == [] && |FOOTER| == FOOTER_SIZE;
    Behind(header + copied + data, [], []);
    if c.dataPos >= |data| { return Cursor(3, 0, c.dataPos), at, text; }
    var cp := Min(BLOCK_SIZE - at, |data| - c.dataPos);
    Put(block, at, data, c.dataPos, cp, text, base);
    SliceNext(data, c.dataPos, cp);
    Behind(header + copied, data[..c.dataPos], data[c.dataPos..c.dataPos + cp]);
    text' := text + data[c.dataPos..c.dataPos + cp];
    at' := at + cp;
    c' := if c.dataPos + cp >= |data| then Cursor(3, 0, c.dataPos + cp) else Cursor(2, c.segPos, c.dataPos + cp);
  }

  /** Segment 3. */
  method PutFooter(ghost header: string, ghost data: string, ghost len: nat, block: array<char>, c: Cursor, at: nat,
                   ghost copied: string, ghost text: string, ghost base: nat)
    returns (c': Cursor, at': nat, ghost text': string)
    requires c.seg == 3 && at < BLOCK_SIZE && base + at == |text|
    requires Emitted(c, copied, text, header, len, data) && Partial(block[..], text, base)
    modifies block
    ensures at' <= BLOCK_SIZE && base + at' == |text'| && text <= text'
    ensures Emitted(c', copied, text', header, len, data) && Partial(block[..], text', base)
    ensures c'.seg == 4 || (c'.seg == 3 && at < at')
  {
    hide Partial;
    var cp := Min(BLOCK_SIZE - at, FOOTER_SIZE - c.segPos);
    Put(block, at, FOOTER, c.segPos, cp, text, base);
    SliceNext(FOOTER, c.segPos, cp);
    Behind(header + copied + data, FOOTER[..c.segPos], FOOTER[c.segPos..c.segPos + cp]);
    text' := text + FOOTER[c.segPos..c.segPos + cp];
    at' := at + cp;
    c' := Cursor(if c.segPos + cp >= FOOTER_SIZE then 4 else 3, c.segPos + cp, c.dataPos);
    assert FOOTER[..FOOTER_SIZE] == FOOTER;
  }

  lemma HeaderPhase(c: Cursor, copied: string, text: string, header: string, len: nat, data: string)
    requires Emitted(c, copied, text, header, len, data)
    ensures c.seg == 0 ==> copied == []
  {
  }

  /** One round of the inner loop. */
  method Advance(r: OldDataReader, disk: Disk, header: string, data: string, block: array<char>, c: Cursor, at: nat,
                 ghost copied: string, ghost text: string, ghost base: nat)
    returns (c': Cursor, at': nat, ghost copied': string, ghost text': string)
    requires r.Ready(disk) && c.seg < 4 && at < BLOCK_SIZE && base + at == |text| && |copied| == r.pos
    requires Suffices(r, header, base + BLOCK_SIZE)
    requires Emitted(c, copied, text, header, r.len, data) && Partial(block[..], text, base)
    modifies r`pos, r`cachedBlock, r`buffer, block
    ensures r.Ready(disk) && |copied'| == r.pos
    ensures at' <= BLOCK_SIZE && base + at' == |text'| && text <= text'
    ensures Emitted(c', copied', text', header, r.len, data) && Partial(block[..], text', base)
    ensures c.seg < c'.seg || (c.seg == c'.seg && at < at')
    ensures old(r.Fresh(disk)) && Follows(disk, r, copied) ==> r.Fresh(disk) && Follows(disk, r, copied')
  {
    hide Partial, OldDataReader.Ready, OldDataReader.Fresh, Emitted, Follows;
    copied' := copied;
    HeaderPhase(c, copied, text, header, r.len, data);
    if c.seg == 0 {
      c', at', text' := PutHeader(header, data, r.len, block, c, at, text, base);
    } else if c.seg == 1 {
      c', at', copied', text' := PutOld(r, disk, header, data, block, c, at, copied, text, base);
    } else if c.seg == 2 {
      c', at', text' := PutNew(header, data, r.len, block, c, at, copied, text, base);
    } else {
      c', at', text' := PutFooter(header, data, r.len, block, c, at, copied, text, base);
    }
  }

  /** The size of the whole image. */
  ghost function ImageSize(header: string, len: nat, data: string): nat { |header| + len + |data| + FOOTER_SIZE }

  lemma Sizes(c: Cursor, copied: string, text: string, header: string, len: nat, data: string)
    requires Emitted(c, copied, text, header, len, data)
    ensures |text| <= ImageSize(header, len, data)
    ensures c.seg == 4 <==> |text| == ImageSize(header, len, data)
  {
    assert |FOOTER| == FOOTER_SIZE;
  }

  /** One block of the new run. */
  method NextBlock(r: OldDataReader, disk: Disk, header: string, data: string, block: array<char>, c: Cursor, ghost i: nat,
                   ghost copied: string, ghost text: string)
    returns (c': Cursor, ghost copied': string, ghost text': string)
    requires r.Ready(disk) && block.Length == BLOCK_SIZE && |copied| == r.pos
    requires |text| == i * BLOCK_SIZE && Emitted(c, copied, text, header, r.len, data) && Suffices(r, header, (i + 1) * BLOCK_SIZE)
    modifies r`pos, r`cachedBlock, r`buffer, block
    ensures r.Ready(disk) && |copied'| == r.pos && block[..] == BlockOf(text', i)
    ensures text <= text' && Emitted(c', copied', text', header, r.len, data)
    ensures |text'| == Min((i + 1) * BLOCK_SIZE, ImageSize(header, r.len, data))
    ensures old(r.Fresh(disk)) && Follows(disk, r, copied) ==> r.Fresh(disk) && Follows(disk, r, copied')
  {
    forall k | 0 <= k < BLOCK_SIZE {
      block[k] := NUL;
    }
    c', copied', text' := c, copied, text;
    var outPos: nat := 0;
    assert Partial(block[..], text', i * BLOCK_SIZE);
    hide OldDataReader.Ready, OldDataReader.Fresh, Emitted, Follows;
    Sizes(c', copied', text', header, r.len, data);
    while outPos < BLOCK_SIZE && c'.seg < 4
      invariant r.Ready(disk) && |copied'| == r.pos && 0 <= outPos <= BLOCK_SIZE && i * BLOCK_SIZE + outPos == |text'|
      invariant Emitted(c', copied', text', header, r.len, data) && Partial(block[..], text', i * BLOCK_SIZE) && text <= text'
      invariant old(r.Fresh(disk)) && Follows(disk, r, copied) ==> r.Fresh(disk) && Follows(disk, r, copied')
      decreases 4 - c'.seg, BLOCK_SIZE - outPos
    {
      c', outPos, copied', text' := Advance(r, disk, header, data, block, c', outPos, copied', text', i * BLOCK_SIZE);
    }
    Sizes(c', copied', text', header, r.len, data);
    PartialWhole(block[..], text', i);
  }

  /** A longer text has the same full blocks. */
  lemma WrittenLonger(disk: Disk, before: Disk, start: nat, i: nat, text: string, longer: string)
    requires Written(disk, before, start, i, text) && i * BLOCK_SIZE <= |text| && text <= longer
    ensures Written(disk, before, start, i, longer)
  {
    forall b | InRun(b, start, i) ensures b in disk && disk[b] == BlockOf(longer, b - start) {
      SameBlocks(text, longer, b - start);
    }
  }

  lemma SameBlocks(text: string, longer: string, i: nat)
    requires (i + 1) * BLOCK_SIZE <= |text| && text <= longer
    ensures BlockOf(text, i) == BlockOf(longer, i)
  {
  }

  lemma RunMore(disk: Disk, mid: Disk, before: Disk, start: nat, i: nat, block: string, text: string)
    requires Written(mid, before, start, i, text) && block == BlockOf(text, i) && disk == mid[start + i := block]
    ensures Written(disk, before, start, i + 1, text)
  {
    hide BlockOf;
    forall b | InRun(b, start, i + 1) ensures b in disk && disk[b] == BlockOf(text, b - start) {
      assert b != start + i ==> InRun(b, start, i);
    }
    forall b | b in before && !InRun(b, start, i + 1) ensures b in disk && disk[b] == before[b] {
      assert !InRun(b, start, i);
    }
    forall b | b in disk && !InRun(b, start, i + 1) ensures b in before {
      assert !InRun(b, start, i);
    }
  }

  /** Writing whole blocks keeps every block readable. */
  lemma StillReadable(disk: Disk, before: Disk, start: nat, i: nat, text: string, from: nat, count: nat)
    requires Written(disk, before, start, i, text) && Readable(before, from, count)
    ensures Readable(disk, from, count)
  {
    forall b | InRun(b, from, count) ensures b in disk && |disk[b]| == BLOCK_SIZE {
      assert b in before;
      if InRun(b, start, i) { assert disk[b] == BlockOf(text, b - start); }
    }
  }

  ghost predicate Beside(start: nat, count: nat, from: nat, n: nat) {
    start + count <= from || from + n <= start
  }

  lemma BesideSame(disk: Disk, before: Disk, start: nat, i: nat, total: nat, text: string, from: nat, count: nat)
    requires Written(disk, before, start, i, text) && i <= total && Readable(before, from, count) && Beside(from, count, start, total)
    ensures SameRun(before, disk, from, count)
  {
    hide BlockOf;
    forall b | InRun(b, from, count) ensures b in before && b in disk && disk[b] == before[b] {
      assert !InRun(b, start, i);
    }
  }

  /** While another run is written, the reader stays ready; beside it, it goes on reading the same bytes. */
  lemma ReaderKept(r: OldDataReader, disk: Disk, mid: Disk, before: Disk, start: nat, i: nat, total: nat,
                   text: string, longer: string, copied: string)
    requires r.Ready(mid) && Readable(before, r.start, r.count)
    requires Written(mid, before, start, i, text) && Written(disk, before, start, i + 1, longer) && i + 1 <= total
    ensures r.Ready(disk)
    ensures Beside(r.start, r.count, start, total) && r.Fresh(mid) && Follows(mid, r, copied) ==> r.Fresh(disk) && Follows(disk, r, copied)
  {
    hide Written, Readable, SameRun, Bytes, Beside;
    StillReadable(disk, before, start, i + 1, longer, r.start, r.count);
    if Beside(r.start, r.count, start, total) && r.Fresh(mid) && Follows(mid, r, copied) {
      BesideSame(disk, before, start, i + 1, total, longer, r.start, r.count);
      BesideSame(mid, before, start, i, total, text, r.start, r.count);
      SameTwice(before, mid, disk, r.start, r.count);
      SameBytes(mid, disk, r.start, r.count, r.offset, |copied|);
      if r.cachedBlock >= 0 { SameAt(mid, disk, r.start, r.count, r.cachedBlock); }
    }
  }

  lemma SameTwice(a: Disk, b: Disk, c: Disk, start: nat, count: nat)
    requires SameRun(a, b, start, count) && SameRun(a, c, start, count)
    ensures SameRun(b, c, start, count)
  {
  }

  lemma SameAt(a: Disk, b: Disk, start: nat, count: nat, i: nat)
    requires SameRun(a, b, start, count) && i < count
    ensures start + i in a && start + i in b && a[start + i] == b[start + i]
  {
    assert InRun(start + i, start, count);
  }

  lemma NothingCopied(r: OldDataReader, disk: Disk)
    requires r.Ready(disk)
    ensures Follows(disk, r, [])
  {
    assert Bytes(disk, r.start, r.count, r.offset, 0) == [];
  }

  /** How much of the old data goes into a run of n blocks behind the header. */
  function Reach(header: string, len: nat, n: nat): nat {
    if n * BLOCK_SIZE <= |header| then 0 else Min(len, n * BLOCK_SIZE - |header|)
  }

  lemma ReachSuffices(r: OldDataReader, header: string, n: nat, i: nat)
    requires r.reach == Reach(header, r.len, n) && i <= n
    ensures Suffices(r, header, i * BLOCK_SIZE)
  {
  }

  /** The loop of minimafs_append_file. The new run holds the first n blocks of header, old data, new data and footer,
      zero-padded, and every other block is as before. If the blocks read lie beside the new run, what was copied is
      what they held; what the loop did not get to can be anything. */
  method CopyAppend(disk: Disk, oldStart: nat, oldCount: nat, oldOffset: nat, oldLen: nat,
                    header: string, data: string, newStart: nat, n: nat)
    returns (disk': Disk, ghost copied: string)
    requires Readable(disk, oldStart, oldCount) && oldOffset + Reach(header, oldLen, n) <= oldCount * BLOCK_SIZE
    requires n <= BlockCount(ImageSize(header, oldLen, data))
    ensures |copied| == oldLen && Written(disk', disk, newStart, n, header + copied + data + FOOTER)
    ensures var reach := Reach(header, oldLen, n);
            Beside(oldStart, oldCount, newStart, n) ==> copied[..reach] == Bytes(disk, oldStart, oldCount, oldOffset, reach)
  {
    ghost var size := ImageSize(header, oldLen, data);
    var r := new OldDataReader(disk, oldStart, oldCount, oldOffset, oldLen, Reach(header, oldLen, n));
    var block := new char[BLOCK_SIZE];
    var c := Cursor(0, 0, 0);
    disk' := disk;
    ghost var text: string := [];
    copied := [];
    assert Written(disk', disk, newStart, 0, text);
    NothingCopied(r, disk);
    hide Written, Readable, BlockOf, Follows, OldDataReader.Ready, OldDataReader.Fresh, Beside, Reach, Suffices;
    ghost var beside := Beside(oldStart, oldCount, newStart, n);
    for i := 0 to n
      invariant r.Ready(disk') && |copied| == r.pos
      invariant Emitted(c, copied, text, header, oldLen, data) && |text| == Min(i * BLOCK_SIZE, size)
      invariant Written(disk', disk, newStart, i, text)
      invariant beside ==> r.Fresh(disk') && Follows(disk', r, copied)
    {
      ghost var mid, before := disk', text;
      ReachSuffices(r, header, n, i + 1);
      c, copied, text := NextBlock(r, disk', header, data, block, c, i, copied, text);
      WrittenLonger(mid, disk, newStart, i, before, text);
      disk' := disk'[newStart + i := block[..]];
      RunMore(disk', mid, disk, newStart, i, block[..], text);
      ReaderKept(r, disk', mid, disk, newStart, i, n, text, text, copied);
    }
    Sizes(c, copied, text, header, oldLen, data);
    ReachReached(r, disk', c, copied, text, header, data, n);
    if beside { CopiedBefore(r, disk', disk, newStart, n, text, copied); }
    copied := WholeImage(disk', disk, newStart, n, c, copied, text, header, oldLen, data);
  }

  /** The loop has read what goes into the run. */
  lemma ReachReached(r: OldDataReader, disk: Disk, c: Cursor, copied: string, text: string, header: string, data: string, n: nat)
    requires r.Ready(disk) && |copied| == r.pos && r.reach == Reach(header, r.len, n)
    requires Emitted(c, copied, text, header, r.len, data) && |text| == Min(n * BLOCK_SIZE, ImageSize(header, r.len, data))
    ensures |copied| == r.reach
  {
    hide Readable;
    Sizes(c, copied, text, header, r.len, data);
  }

  /** The text of the run is the beginning of an image with all of the old data. */
  lemma WholeImage(disk: Disk, before: Disk, start: nat, n: nat, c: Cursor, copied: string, text: string,
                   header: string, len: nat, data: string)
    returns (all: string)
    requires Written(disk, before, start, n, text) && Emitted(c, copied, text, header, len, data)
    requires |text| == Min(n * BLOCK_SIZE, ImageSize(header, len, data))
    ensures |all| == len && all[..|copied|] == copied && Written(disk, before, start, n, header + all + data + FOOTER)
  {
    hide Written;
    Sizes(c, copied, text, header, len, data);
    all := copied + seq(len - |copied|, _ => NUL);
    if c.seg < 4 {
      ImageStarts(c, copied, text, header, len, data, all);
      WrittenLonger(disk, before, start, n, text, header + all + data + FOOTER);
    } else {
      assert all == copied;
    }
  }

  lemma ImageStarts(c: Cursor, copied: string, text: string, header: string, len: nat, data: string, all: string)
    requires Emitted(c, copied, text, header, len, data) && c.seg < 4 && |all| == len && copied <= all
    ensures text <= header + all + data + FOOTER
  {
    if c.seg == 2 { assert copied == all; }
    if c.seg == 3 { assert copied == all; }
  }

  lemma CopiedBefore(r: OldDataReader, disk: Disk, before: Disk, start: nat, count: nat, text: string, copied: string)
    requires Written(disk, before, start, count, text) && Readable(before, r.start, r.count)
    requires Beside(r.start, r.count, start, count) && Follows(disk, r, copied)
    ensures copied == Bytes(before, r.start, r.count, r.offset, |copied|)
  {
    hide Written, Readable, SameRun;
    BesideSame(disk, before, start, count, count, text, r.start, r.count);
    SameBytes(before, disk, r.start, r.count, r.offset, |copied|);
  }
}
