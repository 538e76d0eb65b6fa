/** Reading an open file: large files through a one-block cache, small ones from a copy in memory. */
module Stream {
  import opened Layout
  import opened Words

  const NONE := -1

  /** Part of one block, as bytes of the run. */
  lemma CacheSlice(disk: Disk, start: nat, count: nat, p: nat, len: nat)
    requires Readable(disk, start, count) && p + len <= count * BLOCK_SIZE && p % BLOCK_SIZE + len <= BLOCK_SIZE
    requires p / BLOCK_SIZE < count
    ensures var b := start + p / BLOCK_SIZE;
            InRun(b, start, count) && b in disk && |disk[b]| == BLOCK_SIZE &&
            disk[b][p % BLOCK_SIZE..p % BLOCK_SIZE + len] == Bytes(disk, start, count, p, len)
  {
    var b := start + p / BLOCK_SIZE;
    assert InRun(b, start, count);
    var x, y := disk[b][p % BLOCK_SIZE..p % BLOCK_SIZE + len], Bytes(disk, start, count, p, len);
    forall k | 0 <= k < len ensures x[k] == y[k] {
      SameBlock(p, k);
    }
  }

  lemma SameBlock(p: nat, k: nat)
    requires p % BLOCK_SIZE + k < BLOCK_SIZE
    ensures (p + k) / BLOCK_SIZE == p / BLOCK_SIZE && (p + k) % BLOCK_SIZE == p % BLOCK_SIZE + k
  {
  }

  lemma BytesSplit(disk: Disk, start: nat, count: nat, from: nat, a: nat, b: nat)
    requires Readable(disk, start, count) && from + a + b <= count * BLOCK_SIZE
    ensures Bytes(disk, start, count, from, a) + Bytes(disk, start, count, from + a, b) == Bytes(disk, start, count, from, a + b)
  {
  }

  lemma BytesPart(disk: Disk, start: nat, count: nat, from: nat, len: nat, i: nat, n: nat)
    requires Readable(disk, start, count) && from + len <= count * BLOCK_SIZE && i + n <= len
    ensures Bytes(disk, start, count, from, len)[i..i + n] == Bytes(disk, start, count, from + i, n)
  {
  }

  lemma BlockOfByte(p: nat, count: nat)
    requires p < count * BLOCK_SIZE
    ensures p / BLOCK_SIZE < count
  {
  }

  /** minimafs_file_handle_t of a file that does not change while it is open. */
  class Handle {
    const disk: Disk
    const start: nat
    const count: nat
    const dataOffset: nat
    const dataSize: nat
    const streaming: bool
    const data: string
    var position: nat
    var cachedIndex: int
    var cache: string

    /** The data lies in the run, and no 32-bit offset into it wraps around. */
    ghost predicate Inside() {
      dataOffset + dataSize <= count * BLOCK_SIZE && dataOffset + dataSize <= WORD
    }

    /** What the file holds. */
    ghost function Contents(): (s: string)
      requires Readable(disk, start, count) && Inside()
      ensures |s| == dataSize
    {
      Bytes(disk, start, count, dataOffset, dataSize)
    }

    /** The offset in the run of a position in the data, a sum of 32-bit numbers. */
    function FileOffset(p: nat): nat { (dataOffset + p) % WORD }

    /** What reading n bytes from p comes to: it stops at the first byte outside the run. */
    ghost function Seen(p: nat, n: nat): string
      requires Readable(disk, start, count)
      decreases n
    {
      var q := FileOffset(p);
      if n == 0 || q / BLOCK_SIZE >= count then [] else [ByteAt(disk, start, count, q)] + Seen(p + 1, n - 1)
    }

    lemma SeenChunk(p: nat, n: nat, cp: nat)
      requires Readable(disk, start, count) && FileOffset(p) / BLOCK_SIZE < count
      requires cp <= n && FileOffset(p) % BLOCK_SIZE + cp <= BLOCK_SIZE
      ensures var q := FileOffset(p); var b := start + q / BLOCK_SIZE;
              && InRun(b, start, count) && b in disk && |disk[b]| == BLOCK_SIZE
              && Seen(p, n) == disk[b][q % BLOCK_SIZE..q % BLOCK_SIZE + cp] + Seen(p + cp, n - cp)
    {
      ByteInRun(FileOffset(p));
      hide Readable, ByteAt, Seen, InRun, FileOffset;
      SeenFrom(p, n, cp, start + FileOffset(p) / BLOCK_SIZE, FileOffset(p) % BLOCK_SIZE);
    }

    lemma {:induction false} SeenFrom(p: nat, n: nat, cp: nat, b: nat, off: nat)
      requires Readable(disk, start, count) && cp <= n && off + cp <= BLOCK_SIZE
      requires cp > 0 ==> At(p, b, off)
      requires b in disk && |disk[b]| == BLOCK_SIZE
      ensures Seen(p, n) == disk[b][off..off + cp] + Seen(p + cp, n - cp)
      decreases cp
    {
      hide Readable, Seen, At;
      if cp == 0 {
        assert disk[b][off..off] + Seen(p, n) == Seen(p, n);
      } else {
        SeenStep(p, n, b, off);
        if cp > 1 { NextInBlock(p, b, off); }
        SeenFrom(p + 1, n - 1, cp - 1, b, off + 1);
        FirstOff(disk[b], off, cp, Seen(p + cp, n - cp));
      }
    }

    /** Position p of the data is byte off of block b. */
    ghost predicate At(p: nat, b: nat, off: nat) {
      FileOffset(p) / BLOCK_SIZE < count && b == start + FileOffset(p) / BLOCK_SIZE && off == FileOffset(p) % BLOCK_SIZE
    }

    /** No more is read than the run holds. */
    lemma {:induction false} SeenInRun(p: nat, n: nat)
      requires Readable(disk, start, count) && count * BLOCK_SIZE < WORD
      ensures |Seen(p, n)| <= count * BLOCK_SIZE
      ensures FileOffset(p) < count * BLOCK_SIZE ==> |Seen(p, n)| <= count * BLOCK_SIZE - FileOffset(p)
      decreases n
    {
      hide Readable, ByteAt, FileOffset;
      if n > 0 && FileOffset(p) / BLOCK_SIZE < count {
        SeenInRun(p + 1, n - 1);
        OffsetNext(p);
      }
    }

    lemma OffsetNext(p: nat)
      requires FileOffset(p) / BLOCK_SIZE < count && count * BLOCK_SIZE < WORD
      ensures FileOffset(p) < count * BLOCK_SIZE && FileOffset(p + 1) == FileOffset(p) + 1
      ensures FileOffset(p + 1) == count * BLOCK_SIZE ==> FileOffset(p + 1) / BLOCK_SIZE == count
    {
    }

    static lemma FirstOff(block: string, off: nat, n: nat, rest: string)
      requires n > 0 && off + n <= |block|
      ensures block[off..off + n] + rest == [block[off]] + (block[off + 1..off + n] + rest)
    {
    }

    lemma NextInBlock(p: nat, b: nat, off: nat)
      requires At(p, b, off) && off + 1 < BLOCK_SIZE
      ensures At(p + 1, b, off + 1)
    {
      NextOffset(dataOffset + p);
    }

    lemma ByteInRun(q: nat)
      requires Readable(disk, start, count) && q / BLOCK_SIZE < count
      ensures var b := start + q / BLOCK_SIZE; InRun(b, start, count) && b in disk && |disk[b]| == BLOCK_SIZE
      ensures q < count * BLOCK_SIZE && ByteAt(disk, start, count, q) == disk[start + q / BLOCK_SIZE][q % BLOCK_SIZE]
    {
      assert InRun(start + q / BLOCK_SIZE, start, count);
    }

    lemma SeenStep(p: nat, n: nat, b: nat, off: nat)
      requires Readable(disk, start, count) && At(p, b, off) && n > 0
      ensures b in disk && off < |disk[b]| && Seen(p, n) == [disk[b][off]] + Seen(p + 1, n - 1)
    {
      hide ByteAt, Readable, FileOffset;
      ByteInRun(FileOffset(p));
    }

    lemma {:induction false} SeenInside(p: nat, n: nat)
      requires Readable(disk, start, count) && Inside() && p + n <= dataSize
      ensures Seen(p, n) == Contents()[p..p + n]
      decreases n
    {
      if n > 0 {
        ContentsAt(p);
        hide Contents, Readable, Bytes;
        SeenInside(p + 1, n - 1);
        SliceHead(Contents(), p, n);
      }
    }

    lemma ContentsAt(p: nat)
      requires Readable(disk, start, count) && Inside() && p < dataSize
      ensures FileOffset(p) == dataOffset + p && FileOffset(p) / BLOCK_SIZE < count
      ensures Contents()[p] == ByteAt(disk, start, count, dataOffset + p)
    {
      BlockOfByte(dataOffset + p, count);
    }

    /** Positions whose offset reaches 2^32 show the run from its start. */
    lemma SeenWrapped(p: nat, n: nat, r: nat)
      requires Readable(disk, start, count) && n > 0 && dataOffset + p == WORD + r && r < count * BLOCK_SIZE && r < WORD
      ensures Seen(p, n) != [] && Seen(p, n)[0] == ByteAt(disk, start, count, r)
    {
      BlockOfByte(r, count);
      hide Readable, ByteAt;
    }

    /** As many bytes as are in the run are seen. */
    lemma {:induction false} SeenAtLeast(p: nat, n: nat, k: nat)
      requires Readable(disk, start, count) && k <= n
      requires dataOffset + p + k <= count * BLOCK_SIZE && dataOffset + p + k <= WORD
      ensures |Seen(p, n)| >= k
      decreases k
    {
      if k > 0 {
        BlockOfByte(dataOffset + p, count);
        hide Readable;
        SeenAtLeast(p + 1, n - 1, k - 1);
      }
    }

    ghost predicate Valid()
      reads this
    {
      && Readable(disk, start, count) && dataOffset < WORD && dataSize < WORD
      && position <= dataSize
      && (!streaming ==> Inside() && data == Contents())
      && (cachedIndex != NONE ==> 0 <= cachedIndex < count && start + cachedIndex in disk && cache == disk[start + cachedIndex])
    }

    /** The tail of minimafs_open, once the header was parsed. */
    constructor (disk: Disk, start: nat, count: nat, dataOffset: nat, dataSize: nat, streaming: bool)
      requires Readable(disk, start, count) && dataOffset < WORD && dataSize < WORD
      requires !streaming ==> dataOffset + dataSize <= count * BLOCK_SIZE && dataOffset + dataSize <= WORD
      ensures Valid() && position == 0 && this.streaming == streaming
      ensures this.disk == disk && this.start == start && this.count == count
      ensures this.dataOffset == dataOffset && this.dataSize == dataSize
    {
      this.disk, this.start, this.count := disk, start, count;
      this.dataOffset, this.dataSize, this.streaming := dataOffset, dataSize, streaming;
      this.data := if streaming then [] else seq(dataSize, k requires 0 <= k < dataSize => ByteAt(disk, start, count, dataOffset + k));
      position, cachedIndex, cache := 0, NONE, [];
    }

    /** minimafs_seek. */
    method Seek(offset: nat)
      requires Valid()
      modifies this`position
      ensures Valid() && position == if offset > dataSize then dataSize else offset
    {
      position := if offset > dataSize then dataSize else offset;
    }

    /** Loads the block into the cache unless it is there. */
    method Load(blockIndex: nat)
      requires Valid() && blockIndex < count
      modifies this`cachedIndex, this`cache
      ensures Valid() && cachedIndex == blockIndex && start + blockIndex in disk && cache == disk[start + blockIndex]
    {
      assert InRun(start + blockIndex, start, count);
      if blockIndex != cachedIndex {
        cache := disk[start + blockIndex];
        cachedIndex := blockIndex;
      }
    }

    /** The streaming loop of minimafs_read. */
    method ReadCached(toRead: nat) returns (buffer: string)
      requires Valid() && position + toRead <= dataSize
      modifies this`position, this`cachedIndex, this`cache
      ensures Valid() && position == old(position) + |buffer| && buffer == Seen(old(position), toRead)
    {
      hide Seen;
      buffer := [];
      var remaining: nat := toRead;
      ghost var p0 := position;
      assert [] + Seen(p0, toRead) == Seen(p0, toRead);
      while remaining > 0
        invariant Valid() && position == p0 + |buffer| && |buffer| + remaining == toRead
        invariant buffer + Seen(position, remaining) == Seen(p0, toRead)
        decreases remaining
      {
        var fileOffset := FileOffset(position);
        var blockIndex, offset := fileOffset / BLOCK_SIZE, fileOffset % BLOCK_SIZE;
        if blockIndex >= count { break; }
        Load(blockIndex);
        var copy := BLOCK_SIZE - offset;
        if copy > remaining { copy := remaining; }
        if copy > dataSize - position { copy := dataSize - position; }
        SeenChunk(position, remaining, copy);
        Chain(buffer, cache[offset..offset + copy], Seen(position + copy, remaining - copy));
        buffer := buffer + cache[offset..offset + copy];
        position := position + copy;
        remaining := remaining - copy;
      }
      SeenEnd(position, remaining);
      assert buffer + [] == buffer;
    }

    lemma SeenEnd(p: nat, n: nat)
      requires Readable(disk, start, count) && (n == 0 || FileOffset(p) / BLOCK_SIZE >= count)
      ensures Seen(p, n) == []
    {
    }

    /** minimafs_read: the bytes at the position, up to the end of the data or of the run. When the data lies in
        the run that is, in both modes, the slice of the contents at the position. */
    method Read(size: nat) returns (buffer: string)
      requires Valid()
      modifies this`position, this`cachedIndex, this`cache
      ensures Valid() && position == old(position) + |buffer|
      ensures buffer == Seen(old(position), if size < dataSize - old(position) then size else dataSize - old(position))
      ensures Inside() ==>
                buffer == Contents()[old(position)..if size < dataSize - old(position) then old(position) + size else dataSize]
    {
      hide Seen, Contents;
      if position >= dataSize {
        SeenEnd(position, 0);
        return [];
      }
      var available := dataSize - position;
      var toRead := if size < available then size else available;
      if Inside() { SeenInside(position, toRead); }
      if streaming {
        buffer := ReadCached(toRead);
      } else {
        buffer := data[position..position + toRead];
        position := position + toRead;
      }
    }
  }

  lemma Chain(a: string, b: string, c: string)
    ensures a + (b + c) == (a + b) + c
  {
  }

  lemma SliceHead(s: string, p: nat, n: nat)
    requires n > 0 && p + n <= |s|
    ensures s[p..p + n] == [s[p]] + s[p + 1..p + n]
  {
  }

  /** Inside a block the next offset is the next byte; the 32-bit sum wraps at a block boundary only. */
  lemma NextOffset(n: nat)
    requires n % WORD % BLOCK_SIZE + 1 < BLOCK_SIZE
    ensures (n + 1) % WORD == n % WORD + 1
    ensures (n + 1) % WORD / BLOCK_SIZE == n % WORD / BLOCK_SIZE
    ensures (n + 1) % WORD % BLOCK_SIZE == n % WORD % BLOCK_SIZE + 1
  {
    var q := n % WORD;
    assert q + 1 < WORD;
  }

  // ---- any sequence of calls ----

  datatype Call = SeekTo(offset: nat) | ReadUpTo(size: nat)

  /** What the calls return on a file that is a plain string, and where they leave the position. */
  ghost function Replayed(contents: string, position: nat, calls: seq<Call>): (seq<string>, nat)
    requires position <= |contents|
    decreases |calls|
  {
    if calls == [] then ([], position)
    else match calls[0]
      case SeekTo(offset) =>
        Replayed(contents, if offset > |contents| then |contents| else offset, calls[1..])
      case ReadUpTo(size) =>
        var end := if size < |contents| - position then position + size else |contents|;
        var (rest, p) := Replayed(contents, end, calls[1..]);
        ([contents[position..end]] + rest, p)
  }

  /** The cached path and the in-memory path return the same for every sequence of calls. */
  method Replay(h: Handle, calls: seq<Call>) returns (outputs: seq<string>)
    requires h.Valid() && h.Inside()
    modifies h`position, h`cachedIndex, h`cache
    ensures h.Valid() && (outputs, h.position) == Replayed(h.Contents(), old(h.position), calls)
    decreases |calls|
  {
    outputs := [];
    if calls != [] {
      match calls[0] {
        case SeekTo(offset) =>
          h.Seek(offset);
          outputs := Replay(h, calls[1..]);
        case ReadUpTo(size) =>
          var buffer := h.Read(size);
          var rest := Replay(h, calls[1..]);
          outputs := [buffer] + rest;
      }
    }
  }
}
