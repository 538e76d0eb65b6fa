/** How a file lies on the disk: header, data and footer in one run of blocks, zero-padded. The writer fills
    chunks of blocks from up to four segments clipped to each block. */
module Layout {
  import opened Text

  const BLOCK_SIZE := 4096
  const MAX_CHUNK := 16

  /** Block number to block contents; a block reads back what was written to it. */
  type Disk = map<nat, string>

  const FOOTER := "@END\n"
  const FOOTER_SIZE := 5

  /** The byte of a text at p; zero beyond its end. */
  function At(text: string, p: nat): char { if p < |text| then text[p] else NUL }

  /** Block i of a text laid out from a block boundary and padded with zeros. */
  function BlockOf(text: string, i: nat): (b: string)
    ensures |b| == BLOCK_SIZE && forall k :: 0 <= k < BLOCK_SIZE ==> b[k] == At(text, i * BLOCK_SIZE + k)
  {
    seq(BLOCK_SIZE, k requires 0 <= k < BLOCK_SIZE => At(text, i * BLOCK_SIZE + k))
  }

  function BlockCount(size: nat): nat { (size + BLOCK_SIZE - 1) / BLOCK_SIZE }

  ghost predicate InRun(b: int, start: nat, count: nat) { start <= b < start + count }

  /** The run holds the text and zeros behind it. */
  ghost predicate RunHolds(disk: Disk, start: nat, count: nat, text: string) {
    forall b :: InRun(b, start, count) ==> b in disk && disk[b] == BlockOf(text, b - start)
  }

  /** The run holds the text, and nothing else on the disk differs from what was there before. */
  ghost predicate Written(disk: Disk, before: Disk, start: nat, count: nat, text: string) {
    && RunHolds(disk, start, count, text)
    && (forall b :: b in before && !InRun(b, start, count) ==> b in disk && disk[b] == before[b])
    && (forall b :: b in disk && !InRun(b, start, count) ==> b in before)
  }

  // ---- one block from its segments ----

  /** The window of the buffer at `base` shows the text from `offset` on. */
  ghost predicate Shows(buffer: seq<char>, base: nat, offset: nat, text: string) {
    base + BLOCK_SIZE <= |buffer| &&
    forall j :: base <= j < base + BLOCK_SIZE ==> buffer[j] == At(text, offset + (j - base))
  }

  /** minimafs_copy_segment_to_block: a segment that starts where the text so far ends. */
  method CopySegment(buffer: array<char>, base: nat, offset: nat, src: string, srcStart: nat, ghost text: string)
    requires Shows(buffer[..], base, offset, text) && srcStart == |text|
    modifies buffer
    ensures Shows(buffer[..], base, offset, text + src)
    ensures buffer[..base] == old(buffer[..base]) && buffer[base + BLOCK_SIZE..] == old(buffer[base + BLOCK_SIZE..])
  {
    if |src| == 0 {
      assert text + src == text;
      return;
    }
    var blockEnd, srcEnd := offset + BLOCK_SIZE, srcStart + |src|;
    if srcEnd <= offset || srcStart >= blockEnd { return; }
    var copyStart := if srcStart > offset then srcStart else offset;
    var copyEnd := if srcEnd < blockEnd then srcEnd else blockEnd;
    var at, from := base + (copyStart - offset), copyStart - srcStart;
    forall k | 0 <= k < copyEnd - copyStart {
      buffer[at + k] := src[from + k];
    }
  }

  /** Header, two data segments and footer, as the inner loop copies them into a zeroed block. */
  method FillBlock(buffer: array<char>, base: nat, offset: nat, header: string, seg1: string, seg2: string)
    requires Shows(buffer[..], base, offset, [])
    modifies buffer
    ensures Shows(buffer[..], base, offset, header + seg1 + seg2 + FOOTER)
    ensures buffer[..base] == old(buffer[..base]) && buffer[base + BLOCK_SIZE..] == old(buffer[base + BLOCK_SIZE..])
  {
    hide Shows;
    assert [] + header == header;
    CopySegment(buffer, base, offset, header, 0, []);
    CopySegment(buffer, base, offset, seg1, |header|, header);
    CopySegment(buffer, base, offset, seg2, |header| + |seg1|, header + seg1);
    CopySegment(buffer, base, offset, FOOTER, |header| + |seg1| + |seg2|, header + seg1 + seg2);
  }

  // ---- the chunked writer ----

  ghost function Slice(buffer: string, j: nat): string
    requires (j + 1) * BLOCK_SIZE <= |buffer|
  {
    buffer[j * BLOCK_SIZE..(j + 1) * BLOCK_SIZE]
  }

  /** minimafs_write_blocks. */
  method WriteBlocks(disk: Disk, start: nat, count: nat, buffer: string) returns (disk': Disk)
    requires |buffer| >= count * BLOCK_SIZE
    ensures forall b :: InRun(b, start, count) ==> b in disk' && disk'[b] == Slice(buffer, b - start)
    ensures forall b :: b in disk && !InRun(b, start, count) ==> b in disk' && disk'[b] == disk[b]
    ensures forall b :: b in disk' && !InRun(b, start, count) ==> b in disk
  {
    disk' := disk;
    for i := 0 to count
      invariant forall b :: InRun(b, start, i) ==> b in disk' && disk'[b] == Slice(buffer, b - start)
      invariant forall b :: b in disk && !InRun(b, start, i) ==> b in disk' && disk'[b] == disk[b]
      invariant forall b :: b in disk' && !InRun(b, start, i) ==> b in disk
    {
      disk' := disk'[start + i := buffer[i * BLOCK_SIZE..(i + 1) * BLOCK_SIZE]];
    }
  }

  /** The first j blocks of the buffer are those of the text from block `first` on. */
  ghost predicate Filled(buffer: string, j: nat, first: nat, text: string) {
    j * BLOCK_SIZE <= |buffer| && forall m :: 0 <= m < j ==> Slice(buffer, m) == BlockOf(text, first + m)
  }

  lemma FilledMore(now: string, before: string, j: nat, first: nat, text: string)
    requires Filled(before, j, first, text) && |now| == |before|
    requires now[..j * BLOCK_SIZE] == before[..j * BLOCK_SIZE]
    requires Shows(now, j * BLOCK_SIZE, (first + j) * BLOCK_SIZE, text)
    ensures Filled(now, j + 1, first, text)
  {
    forall m | 0 <= m < j + 1 ensures Slice(now, m) == BlockOf(text, first + m) {
      if m < j { SliceOfPrefix(now, before, m, j); } else { SliceShown(now, j, first + j, text); }
    }
  }

  lemma SliceOfPrefix(now: string, before: string, m: nat, j: nat)
    requires m < j && j * BLOCK_SIZE <= |now| && j * BLOCK_SIZE <= |before|
    requires now[..j * BLOCK_SIZE] == before[..j * BLOCK_SIZE]
    ensures Slice(now, m) == Slice(before, m)
  {
    assert Slice(now, m) == now[..j * BLOCK_SIZE][m * BLOCK_SIZE..(m + 1) * BLOCK_SIZE];
    assert Slice(before, m) == before[..j * BLOCK_SIZE][m * BLOCK_SIZE..(m + 1) * BLOCK_SIZE];
  }

  lemma SliceShown(buffer: string, j: nat, i: nat, text: string)
    requires Shows(buffer, j * BLOCK_SIZE, i * BLOCK_SIZE, text)
    ensures Slice(buffer, j) == BlockOf(text, i)
  {
  }

  /** One chunk: zeroed, filled block by block. */
  method FillChunk(buffer: array<char>, first: nat, chunk: nat, header: string, seg1: string, seg2: string)
    requires chunk * BLOCK_SIZE <= buffer.Length
    modifies buffer
    ensures Filled(buffer[..], chunk, first, header + seg1 + seg2 + FOOTER)
  {
    forall k | 0 <= k < chunk * BLOCK_SIZE {
      buffer[k] := NUL;
    }
    ghost var text := header + seg1 + seg2 + FOOTER;
    for j := 0 to chunk
      invariant Filled(buffer[..], j, first, text)
      invariant forall k :: j * BLOCK_SIZE <= k < chunk * BLOCK_SIZE ==> buffer[k] == NUL
    {
      ghost var before := buffer[..];
      assert Shows(before, j * BLOCK_SIZE, (first + j) * BLOCK_SIZE, []);
      FillBlock(buffer, j * BLOCK_SIZE, (first + j) * BLOCK_SIZE, header, seg1, seg2);
      hide Filled, Shows;
      FilledMore(buffer[..], before, j, first, text);
      assert forall k :: (j + 1) * BLOCK_SIZE <= k < chunk * BLOCK_SIZE ==>
        buffer[k] == buffer[j * BLOCK_SIZE + BLOCK_SIZE..][k - (j + 1) * BLOCK_SIZE];
    }
  }

  /** The write loop of minimafs_write_file_to_disk_segments: the run ends up holding header, data and footer,
      zero-padded, and no other block changes. */
  method WriteImage(disk: Disk, start: nat, count: nat, header: string, seg1: string, seg2: string) returns (disk': Disk)
    ensures Written(disk', disk, start, count, header + seg1 + seg2 + FOOTER)
  {
    hide Written, Filled, Slice, InRun;
    ghost var text := header + seg1 + seg2 + FOOTER;
    var bufferBlocks := if count < MAX_CHUNK then count else MAX_CHUNK;
    var buffer := new char[BLOCK_SIZE * bufferBlocks];
    disk' := disk;
    var i := 0;
    NothingWritten(disk, start, text);
    while i < count
      invariant 0 <= i <= count
      invariant Written(disk', disk, start, i, text)
    {
      var chunk := count - i;
      if chunk > MAX_CHUNK { chunk := MAX_CHUNK; }
      FillChunk(buffer, i, chunk, header, seg1, seg2);
      ghost var before := disk';
      disk' := WriteBlocks(disk', start + i, chunk, buffer[..]);
      WrittenMore(disk', before, disk, start, i, chunk, buffer[..], text);
      i := i + chunk;
    }
  }

  lemma NothingWritten(disk: Disk, start: nat, text: string)
    ensures Written(disk, disk, start, 0, text)
  {
  }

  lemma WrittenMore(disk: Disk, mid: Disk, before: Disk, start: nat, i: nat, chunk: nat, buffer: string, text: string)
    requires Written(mid, before, start, i, text) && Filled(buffer, chunk, i, text)
    requires |buffer| >= chunk * BLOCK_SIZE
    requires forall b :: InRun(b, start + i, chunk) ==> b in disk && disk[b] == Slice(buffer, b - (start + i))
    requires forall b :: b in mid && !InRun(b, start + i, chunk) ==> b in disk && disk[b] == mid[b]
    requires forall b :: b in disk && !InRun(b, start + i, chunk) ==> b in mid
    ensures Written(disk, before, start, i + chunk, text)
  {
    hide BlockOf, Slice;
    forall b | InRun(b, start, i + chunk) ensures b in disk && disk[b] == BlockOf(text, b - start) {
      if InRun(b, start, i) {
        assert b in mid && !InRun(b, start + i, chunk);
      } else {
        assert InRun(b, start + i, chunk);
        assert Slice(buffer, b - (start + i)) == BlockOf(text, i + (b - (start + i)));
      }
    }
  }

  // ---- reading a run ----

  /** Every block of the run can be read and is whole. */
  ghost predicate Readable(disk: Disk, start: nat, count: nat) {
    forall b :: InRun(b, start, count) ==> b in disk && |disk[b]| == BLOCK_SIZE
  }

  /** Byte p of a run. */
  function ByteAt(disk: Disk, start: nat, count: nat, p: nat): char
    requires Readable(disk, start, count) && p < count * BLOCK_SIZE
  {
    assert InRun(start + p / BLOCK_SIZE, start, count);
    disk[start + p / BLOCK_SIZE][p % BLOCK_SIZE]
  }

  /** Bytes from..from + len of a run. */
  ghost function Bytes(disk: Disk, start: nat, count: nat, from: nat, len: nat): (s: string)
    requires Readable(disk, start, count) && from + len <= count * BLOCK_SIZE
    ensures |s| == len
  {
    seq(len, k requires 0 <= k < len => ByteAt(disk, start, count, from + k))
  }

  /** A written run reads back as the text. */
  lemma ReadsBack(disk: Disk, before: Disk, start: nat, count: nat, text: string, from: nat, len: nat)
    requires Written(disk, before, start, count, text) && from + len <= count * BLOCK_SIZE
    ensures Readable(disk, start, count)
    ensures Bytes(disk, start, count, from, len) == seq(len, k requires 0 <= k < len => At(text, from + k))
  {
    forall b | InRun(b, start, count) ensures b in disk && |disk[b]| == BLOCK_SIZE {
      assert disk[b] == BlockOf(text, b - start);
    }
    forall p | 0 <= p < count * BLOCK_SIZE ensures ByteAt(disk, start, count, p) == At(text, p) {
      var b := start + p / BLOCK_SIZE;
      assert InRun(b, start, count) && disk[b] == BlockOf(text, b - start);
    }
  }
}
