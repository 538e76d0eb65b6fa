# MinimalOS in Dafny

A model of four parts of MinimalOS, with proofs of what each is for.
`dafny verify dfyconfig.toml` checks the whole project.

**MinimaFS.** Free space is a sorted, merged list of used extents, edited in place.
`Extents` shows that the list is the canonical form of a plain set of blocks and that allocation is first fit.
`Text`, `Tags`, `Descriptors`, `FileHeader`, `FileLength` and `FolderDesc` model the texts on the disk and what parsing them gives back.
`Layout`, `Stream`, `Append`, `Image` and `Files` model a file's run of blocks from both ends: writing, opening, reading through the one-block cache, appending.
`Directory`, `Paths`, `Volume` and `Edits` describe a mounted volume as a value, and `Effects` says what each operation does to it, outcome by outcome.
`MinimaFS` has the drive with its operations (`Moves` has their steps, `Headers` what they leave in a header), `Mounting` formats and mounts, and `Runs` puts operations one after the other.
`Sessions` and `Readback` follow a file by its path through them, and `Witnesses` and `Crowded` have inputs for which an operation fails.
The main results are `Runs.Lifecycle`, `Runs.RunsDisjoint`, `Sessions.FileSurvives` and `Readback.WriteAppendsRead`: after a format and any run of operations the mount-time scan rebuilds exactly the extent list, free count and descriptor that the running system kept, runs of distinct entries never share a block, operations leave other files alone, and what was written and appended is what is read.
`Mounting.Format` builds a first state of the volume's invariant, so the invariant can be met.

**LZSS and MPKG.** `Lzss` specifies the decoder by copying from an unbounded history and shows that the ring refines it.
`LzssEncoder` (kernel, hash chains) is shown to find the longest and then oldest match at the newest positions that its chain limit allows, for every limit.
With chains over the whole window, it and `MkpkgEncoder` (mkpkg.py, indexed positions) find that of an exhaustive search, so that they write the same bytes.
`LzssCodec` puts encoders and decoder together, and `Mpkg` builds and unpacks archives.

**Two protocols of mosmedia.** `Wavefront` and `ReadAhead` are step relations over any interleaving; safety, freedom from deadlock and termination are proved for all runs, and completion for all fair ones.

**IMA ADPCM.** `Adpcm` shows that encoder and decoder stay in lockstep, how far they are off, and that a constant signal is reached.

## What does not hold

- A file header does not always parse back. Tag lookups are not bounded to a line, so a tag in the file's own data overrides the header, except for HIDDEN. `FileHeader.HeaderRead` says for every tail what comes back and `FileHeader.HeaderRoundTrip` for which tails it is the record.
- Opening a file does not always find its data, for the same reason. `Files.TagInData` is a file of 11 bytes that opens with one; `Files.OpenFile` gives the exact condition on the DATALEN and FILELEN that can be seen in the first block.
- Opening does not always clip a length to the run: a claim whose end reaches 2^32 is kept, and what lies behind reads the run from its start. `Files.LengthClipped` gives the condition.
- The two passes that settle FILELEN are not always enough. `FileLength.SettlesExactly` gives the header lengths for which they are; of the others only 898 to 993 occur (`Files.BaseAtLeast`), and `Witnesses.UnluckyFile` has a path for such a header. An append to such a file loses exactly the last byte of the old data (`Files.LastByteLost`).
- An append believes a FILELEN in the data as well and can then copy bytes from outside the file. `Files.OldDataFound` says for which FILELEN, `Files.ReadsPastRun` is a file for which it does. The directory and the extent list stay in step even then.
- An append adds up lengths in 32 bits. When old data, new data, header and padding reach 2^32 bytes, it takes a run that is too short for the data, frees the old one and reports success. `Files.AppendedIsFile` and `Readback.AppendThenRead` have the exact condition, `Files.AppendWraps` lengths for which it happens.
- Mounting rebuilds the live list only if no operation was lost, that is, failed to write the folder after it had taken or freed blocks. `Effects.CreateEffect`, `Effects.WriteEffect` and `Effects.AppendEffect` say exactly when that happens and what is left: the disk spells out the old tree, and the live list has exchanged the runs. A rescan then gives another list (`Mounting.Diverged`), and blocks that a folder still names are free (`Mounting.NamedButFree`). `Crowded.LoseCreate` and `Crowded.LoseRewrite` mount a concrete disk and lose an operation on it.
- A file whose name has 64 bytes or more is never found again: entries hold 63 bytes of the name, and names are compared whole. Writing it once more adds another entry. `Readback.WrittenFound` gives the condition, `Witnesses.LongNameAt` a name.
- An archive without items is refused by the unpacker (`Mpkg.ArchiveValidates`), and by the kernel's builder before that.

## Model

| member | source | states |
|---|---|---|
| `Extents.Allocator.constructor` | src/impl/filesystem/minimafs.c:716-723 | a new volume: nothing in use, every block free |
| `Extents.Allocator.Init` | src/impl/filesystem/minimafs.c:716-723 | resets the list in place: nothing in use, every block free |
| `Extents.Allocator.Reserve` | src/impl/filesystem/minimafs.c:697-714 | growing the array keeps the list |
| `Extents.Allocator.MarkUsed` | src/impl/filesystem/minimafs.c:726-764 | for any run, overlapping or not, the used blocks become their union with the run clipped to the volume; the list stays sorted with gaps and free plus the extent counts is the size of the volume |
| `Extents.Allocator.FreeRun` | src/impl/filesystem/minimafs.c:800-837 | for any run the used blocks become their difference with it; same invariant |
| `Extents.Allocator.AllocRun` | src/impl/filesystem/minimafs.c:774-794 | returns the smallest start of at least 1 whose whole run is free and inside the volume and marks exactly that run; NO_BLOCK, with nothing changed, exactly when there is none or the run is empty |
| `Extents.Allocator.FirstFit` | src/impl/filesystem/minimafs.c:774-788 | the gap walk is first fit: sound, minimal and complete |
| `Extents.CanonicalUnique` | src/impl/filesystem/minimafs.c:673-687 | two sorted lists with gaps that mark the same blocks are the same list |
| `Extents.SumIsSize` | src/impl/filesystem/minimafs.c:726-764 | the extent counts add up to the number of blocks marked |
| `Extents.Merge` | src/impl/filesystem/minimafs.c:734-763 | replacing the extents that touch a run by their hull is the union, stays canonical and changes the total by what was newly used |
| `Extents.Cut` | src/impl/filesystem/minimafs.c:806-836 | replacing one extent by what is left of it beside a run removes just the run's blocks, stays canonical and changes the total by the overlap |
| `Text.NumberToStr` | src/impl/string.c:180-222 | the digit loop with a reversed buffer prints the positional digits, in both bases |
| `Text.DigitCode` | src/impl/string.c:181-181 | the character codes of the digits |
| `Text.DecimalPlace` | src/impl/string.c:203-222 | each place of a printed number holds the digit of its power of ten |
| `Text.LetterValue` | src/impl/filesystem/minimafs.c:458-460 | letters are read as digits in either case |
| `Text.ValueDigits` | src/impl/string.c:203-222 | reading printed digits gives the number, in both bases |
| `Text.DecimalLength` | src/impl/string.c:203-222 | n has k decimal digits exactly when 10^(k-1) <= n < 10^k |
| `Tags.ParsePrinted` | src/impl/filesystem/minimafs.c:414-442 | looking a tag up in printed lines gives the value of its own line, wherever that stands and whatever follows |
| `Tags.TrimIs` | src/impl/filesystem/minimafs.c:437-439 | spaces and tabs are taken off the end of a bare value, all of them and nothing else |
| `Tags.BoolWords` | src/impl/filesystem/minimafs.c:444-448 | of the short values, True, true and 1 are true |
| `Tags.DecimalSkips` | src/impl/filesystem/minimafs.c:465-468 | a decimal value is that of its digits, whatever stands between them |
| `Tags.HexRead` | src/impl/filesystem/minimafs.c:454-463 | a short value after 0x or 0X is hexadecimal |
| `Descriptors.NumberRoundTrip` | src/impl/filesystem/minimafs.c:450-469 | a printed decimal tag reads back as its number |
| `Descriptors.BoolRoundTrip` | src/impl/filesystem/minimafs.c:444-448 | a printed flag reads back |
| `Descriptors.StorageRoundTrip` | src/impl/filesystem/minimafs.c:843-928 | a printed storage.desc with any text after it parses to the same record, or is refused when magic, size, block count or root is missing |
| `Descriptors.JoinHalves` | src/impl/filesystem/minimafs.c:905-910 | a size read from two tags has the lower half of the one and the bits of both above, also when the lower tag exceeds 32 bits |
| `FileHeader.ParseFileHeader` | src/impl/filesystem/minimafs.c:471-507 | the line loop leaves in each field what the last line from which its tag can be seen gives it |
| `FileHeader.HeaderRead` | src/impl/filesystem/minimafs.c:471-551 | for every tail, parsing a printed header gives the printed record overridden by the tags that occur in the tail, HIDDEN excepted |
| `FileLength.SettleHeader` | src/impl/filesystem/minimafs.c:1226-1239 | the two passes and the final header, with sums that wrap at 2^32, as functions of the header length without the digits of FILELEN |
| `FileLength.SettlesExactly` | src/impl/filesystem/minimafs.c:1226-1239 | for headers up to 8996 bytes: FILELEN equals the bytes laid out for every data length if and only if the header without those digits is not 89 to 93 and not 898 to 993 bytes long |
| `FileLength.RecordedFits` | src/impl/filesystem/minimafs.c:1236-1241 | FILELEN never exceeds what is laid out |
| `FolderDesc.ReadFolder` | src/impl/filesystem/minimafs.c:1002-1038 | the line loop computes the specification of the parser and gives 64 entries at most |
| `FolderDesc.WriteFolder` | src/impl/filesystem/minimafs.c:1110-1138 | prints the whole folder exactly when the entry limit and the room check before each entry allow it, and then fits the block with its terminating zero |
| `FolderDesc.EntryRoundTrip` | src/impl/filesystem/minimafs.c:967-1000 | a printed entry line parses to the entry |
| `FolderDesc.ShortEntry` | src/impl/filesystem/minimafs.c:967-1000 | an entry without count and flag has one block and is not hidden, and every kind but DIR is a file |
| `FolderDesc.FolderRoundTrip` | src/impl/filesystem/minimafs.c:1002-1138 | a printed folder.desc parses to the same path and the same entries in the same order |
| `FolderDesc.ShorterFits` | src/impl/filesystem/minimafs.c:1124-1130 | a folder that fits still fits without one of its entries |
| `Layout.CopySegment` | src/impl/filesystem/minimafs.c:555-568 | clipping a segment to a block window extends the shown text by the segment, whatever their overlap |
| `Layout.WriteImage` | src/impl/filesystem/minimafs.c:1277-1310 | for all segment lengths the chunked writer leaves header, both segments and footer, zero-padded, in the run and changes no other block |
| `Layout.ReadsBack` | src/impl/filesystem/minimafs.c:574-609 | a written run reads back as the text and zeros |
| `Image.HeaderFits` | src/impl/filesystem/minimafs.c:509-553 | every header of a record within the sizes of its C fields is shorter than a block |
| `Image.FindData` | src/impl/filesystem/minimafs.c:1641-1645 | the first data marker is the one that ends the header, whatever the data |
| `Image.FirstBlock` | src/impl/filesystem/minimafs.c:1638-1645 | the string functions see the header and then the data up to its first zero byte |
| `Image.VisibleFree` | src/impl/filesystem/minimafs.c:1638-1645 | a tag that is not in the data is not seen behind the header |
| `Directory.AddKeeps` | src/impl/filesystem/minimafs.c:1443-1451 | adding a file in an unused run keeps runs disjoint, inside the volume and off block 0 and the root |
| `Directory.AddDirKeeps` | src/impl/filesystem/minimafs.c:1992-2012 | the same for a new folder, which hangs below its parent |
| `Directory.SetKeeps` | src/impl/filesystem/minimafs.c:2521-2523 | the same for a run moved to unused blocks or shrunk in place |
| `Directory.DropKeeps` | src/impl/filesystem/minimafs.c:1926-1928 | the same for an entry removed by shifting those after it |
| `Directory.DropDirKeeps` | src/impl/filesystem/minimafs.c:2056-2059 | the same for an empty folder removed |
| `Directory.ReachesAll` | src/impl/filesystem/minimafs.c:1175-1209 | a scan from the root meets a block exactly if some entry's run has it |
| `Directory.WalkLast` | src/impl/filesystem/minimafs.c:1042-1094 | a path leads to the first entry of its name in its parent when that is a folder |
| `Paths.ComponentsSplit` | src/impl/filesystem/minimafs.c:1345-1356 | a path's components are those of its parent and its name |
| `Volume.FolderReads` | src/impl/filesystem/minimafs.c:1002-1138 | a folder written to a zeroed block is read back |
| `Volume.StorageReads` | src/impl/filesystem/minimafs.c:843-928 | every storage.desc within the sizes of its fields fits block 0 and is read back |
| `Volume.SameList` | src/impl/filesystem/minimafs.c:673-687 | two canonical lists that mark the blocks of the same tree are equal, and so are their free counts |
| `Volume.FolderNotInFile` | src/impl/filesystem/minimafs.c:1175-1209 | no folder block lies in a file's run |
| `Edits.AddFileSound` | src/impl/filesystem/minimafs.c:1440-1452 | disk, tree and extent list stay in step when a file is added, and every other file keeps its blocks |
| `Edits.AddDirSound` | src/impl/filesystem/minimafs.c:1981-2017 | the same for a folder |
| `Edits.SetFileSound` | src/impl/filesystem/minimafs.c:1250-1263 | the same when a file's run is reused, shrunk or moved |
| `Edits.DropFileSound` | src/impl/filesystem/minimafs.c:1921-1931 | the same when a file is deleted |
| `Edits.DropDirSound` | src/impl/filesystem/minimafs.c:2055-2066 | the same when a folder is removed |
| `Lzss.Decompress` | src/impl/compression/lzss.c:27-86 | the ring-buffer decoder computes plain copying from an unbounded history, whatever the ring's memory held; truncated input ends the output, overflow gives 0 |
| `Lzss.ParseSerialize` | src/impl/compression/lzss.c:46-79 | flag bytes and symbol bytes parse back to the symbols |
| `Lzss.MatchPlaces` | src/impl/compression/lzss.c:64-71 | the two bytes of a match as twelve bits of its place and four of its length |
| `Lzss.FlagBit` | src/impl/compression/lzss.c:46-53 | bit k of the flags is set exactly if symbol k is a literal |
| `Lzss.RoundTrip` | src/impl/compression/lzss.c:27-86 | any symbols that spell the data decode to it, overlapping matches and distance 4096 included, and 0 bytes come back exactly when the buffer is too small; at most n + ceil(n/8) bytes |
| `LzssEncoder.InsertRange` | src/impl/compression/lzss.c:129-138 | head and prev stay the newest positions of each hash inside the window |
| `LzssEncoder.FindMatch` | src/impl/compression/lzss.c:166-196 | for every chain limit, the longest match at the newest positions with the same hash, as many as the limit, and the oldest of those; none if none of them is useful. The guard against loops never fires |
| `LzssEncoder.PickIsBest` | src/impl/compression/lzss.c:166-196 | the definition of the bounded search by scanning is that match, for every limit |
| `LzssEncoder.NewestIsEnough` | src/impl/compression/lzss.c:180-194 | with any limit but zero, a useful match at the newest position with the same hash is not missed |
| `LzssEncoder.AllTried` | src/impl/compression/lzss.c:101-114 | with a limit of the window's size, what is longest and then oldest of the positions tried is so of the whole window, and the other way round |
| `LzssEncoder.LimitedIsGreedy` | src/impl/compression/lzss.c:166-230 | the parse by bounded search is the greedy parse by exhaustive search for limits of the window's size and more |
| `LzssEncoder.NineBytes` | src/impl/compression/lzss.c:166-249 | nine bytes a are written as 01 61 EE F5 with any limit but zero |
| `LzssEncoder.HashBits` | src/impl/compression/lzss.c:120-123 | the hash is the upper twelve bits of the 32-bit product |
| `LzssEncoder.WindowIs` | src/impl/compression/lzss.c:172-172 | the window reaches back just as far as the ring |
| `LzssEncoder.ExhaustiveIsBest` | src/impl/compression/lzss.c:166-196 | brute-force search of the window is longest-then-oldest |
| `LzssEncoder.Emitter.PutLiteral` | src/impl/compression/lzss.c:205-211 | the group under construction gains the symbol |
| `LzssEncoder.Emitter.PutMatch` | src/impl/compression/lzss.c:197-205 | the group under construction gains the symbol |
| `LzssEncoder.Emitter.EndSymbol` | src/impl/compression/lzss.c:213-230 | a full group of eight is written behind its flag byte |
| `LzssEncoder.Emitter.Finish` | src/impl/compression/lzss.c:232-249 | the bytes are the serialised symbols |
| `LzssEncoder.Compress` | src/impl/compression/lzss.c:140-249 | for every chain limit the output serialises the parse by bounded search, which spells the input, decodes to it whatever the decoder's ring held, and keeps the length bound; from the window's size on it is the greedy parse by exhaustive search |
| `MkpkgEncoder.BisectLeft` | tools/mkpkg/mkpkg.py:89-130 | the first listed position inside the window |
| `MkpkgEncoder.Search` | tools/mkpkg/mkpkg.py:89-130 | the indexed search with its skip test finds the longest and then oldest match |
| `MkpkgEncoder.Compress` | tools/mkpkg/mkpkg.py:59-136 | the output is the greedy parse by exhaustive search, serialised |
| `LzssCodec.GreedySpells` | tools/mkpkg/mkpkg.py:59-136 | the greedy parse spells the input |
| `LzssCodec.PackAndUnpack` | src/impl/compression/lzss.c:27-249 | for every input and chain limit decompression undoes compression, and the length bound holds |
| `LzssCodec.BothEncoders` | src/impl/compression/lzss.c:129-195 | with chains over the whole window the kernel's bytes are those of mkpkg.py |
| `Mpkg.ReadSlice` | src/impl/compression/pkglib.c:14-25 | reading a written number gives the number |
| `Mpkg.U32Places` | src/impl/compression/pkglib.c:19-25 | a written number is the sum of its bytes, lowest first |
| `Mpkg.EntryReads` | src/impl/compression/pkglib.c:36-46 | a written entry parses back |
| `Mpkg.NameIsSafe` | src/impl/compression/pkglib.c:48-62 | exactly the names that are not empty, not absolute and have no .. among the pieces between slashes |
| `Mpkg.PiecesJoin` | src/impl/compression/pkglib.c:48-62 | the pieces of a name hold no slash, and joined with slashes they give the name |
| `Mpkg.UpIsPiece` | src/impl/compression/pkglib.c:52-60 | the test on four characters succeeds somewhere exactly if one of the pieces is .. |
| `Mpkg.ArchiveValidates` | src/impl/compression/pkglib.c:267-276 | a built archive is accepted exactly when it has an item |
| `Mpkg.EntryAt` | src/impl/compression/pkglib.c:594-609 | entry i of a built archive parses to what was written |
| `Mpkg.PayloadAt` | src/impl/compression/pkglib.c:574-616 | a file's payload lies behind the table, inside the archive, at its offset |
| `Mpkg.PayloadsDisjoint` | src/impl/compression/pkglib.c:574-584 | payloads of different files do not overlap |
| `Mpkg.Pack` | src/impl/compression/pkglib.c:544-565 | for every chain limit the payload is the bounded parse if LZSS was asked for, the file is not empty and not over 256 KiB and the result is shorter, else the file itself; it decodes to the item and is not longer |
| `Mpkg.SameChoice` | src/impl/compression/pkglib.c:544-565 | from the window's size on, this is what mkpkg.py chooses |
| `Mpkg.Offsets` | src/impl/compression/pkglib.c:574-584 | offsets are running sums; refused exactly when the archive would reach 2^32 bytes |
| `Mpkg.WriteArchive` | src/impl/compression/pkglib.c:586-616 | the buffer filled in place is the archive |
| `Mpkg.Build` | tools/mkpkg/mkpkg.py:289-327 | mkpkg.py writes the archive of the same items |
| `Mpkg.SameArchive` | tools/mkpkg/mkpkg.py:289-327 | kernel and mkpkg.py write the same archive under the conditions listed |
| `Wavefront.StepInv` | tools/media/mosmedia.c:297-313 | every step of every worker keeps the invariant |
| `Wavefront.NeighboursFinished` | tools/media/mosmedia.c:304-309 | a macroblock is encoded only after its left, above-left, above and above-right neighbours are finished |
| `Wavefront.EncodesRaster` | tools/media/mosmedia.c:309-310 | what is encoded from the neighbours then is the raster-order result |
| `Wavefront.SweepIsRaster` | tools/media/mosplayer.py:346-365 | sequential raster order computes the recursive definition |
| `Wavefront.RunInv` | tools/media/mosmedia.c:297-335 | along every run the invariant holds and the log has each macroblock begun exactly once |
| `Wavefront.NoDeadlock` | tools/media/mosmedia.c:300-312 | a state in which no worker can move has every row complete and every worker gone, so while work is left some worker moves |
| `Wavefront.Confluence` | tools/media/mosmedia.c:297-335 | when no worker can move, every macroblock has been encoded once and the results are those of raster order, for any number of workers and any interleaving |
| `Wavefront.RunCounts` | tools/media/mosmedia.c:297-313 | the number of moves made is the fall of the measure |
| `ReadAhead.StepInv` | tools/media/mosmedia.c:350-376 | every step of reader and encoder keeps the invariant, with counters that wrap at 2^32 and waits that may return without a broadcast |
| `ReadAhead.SlotSafety` | tools/media/mosmedia.c:350-376 | in every reachable state tail - head is at most 4, the slot being filled is not the one held, and a held frame is intact |
| `ReadAhead.InOrder` | tools/media/mosmedia.c:366-376 | frames are delivered once each and in order; NULL only after end of input with every frame delivered |
| `ReadAhead.NoDeadlock` | tools/media/mosmedia.c:350-376 | in every reachable state both are finished or one of them can get something done without a spurious return: no wake-up is lost |
| `ReadAhead.StepDecreases` | tools/media/mosmedia.c:350-376 | a step lowers the measure exactly when it gets something done: it is no partial read, no spurious return and no test that leads to sleep |
| `Adpcm.Channel.Encode` | tools/audioconverter/wavtoadi.py:50-80 | the encoder's new state is the decoder's for the nibble that it returns, within [-32768, 32767] and [0, 88] |
| `Adpcm.ErrorBound` | tools/audioconverter/wavtoadi.py:50-80 | when the sample is less than two steps away the reconstruction is off by (step >> 3) + 2 at most |
| `Adpcm.Adaptation` | tools/audioconverter/wavtoadi.py:33-36 | the index falls by one for magnitudes below 4 and rises by 2, 4, 6, 8 for the others, within [0, 88] |
| `Adpcm.StepGrows` | tools/audioconverter/wavtoadi.py:38-48 | the step sizes go from 7 to 32767, strictly increasing; but for the last, ten times a step is within 8 of eleven times the one before |
| `Adpcm.ConstantSignal` | tools/audioconverter/wavtoadi.py:50-80 | from any state, 102 or more samples of a constant signal bring the predictor within 2 of it and the index to 0 |
| `Adpcm.SteadyTone` | tools/media/mosplayer.py:731-748 | a constant signal is played back within 2 from sample 101 on |
| `Adpcm.MonoLockstep` | tools/media/mosplayer.py:731-748 | decoding packed mono nibbles gives the encoder's predictor trace, from any state |
| `Adpcm.StereoLockstep` | tools/media/mosplayer.py:731-748 | the same for stereo, in the original channel order |
| `Adpcm.EncodePair` | tools/media/mosmedia.c:262-263 | two samples of one channel in one byte, low nibble first |
| `Adpcm.EncodeIma` | tools/audioconverter/wavtoadi.py:83-103 | the packing loops, mono and stereo |
| `Adpcm.Soundtrack` | tools/media/mosmedia.c:257-266 | however the pipe cuts the samples, the bytes are those of the whole stream |
| `Adpcm.DecodeIma` | tools/media/mosplayer.py:731-751 | the decoder's loops, mono and stereo |
| `FileHeader.HeaderRoundTrip` | src/impl/filesystem/minimafs.c:471-551 | every record comes back from in front of a tail if and only if no string tag has a value in the tail and no number or flag tag occurs in it, HIDDEN excepted; fields not printed for files that cannot be run come back as zero |
| `FileHeader.TagFreeHarmless` | src/impl/filesystem/minimafs.c:471-507 | a tail in which no tag occurs is such a tail |
| `FileLength.DoesNotSettle` | src/impl/filesystem/minimafs.c:1226-1239 | for each of those lengths, a data length for which the recorded number falls short |
| `FileLength.GapAtMostOne` | src/impl/filesystem/minimafs.c:1236-1241 | it falls short by one byte at most |
| `FileLength.SettledSize` | src/impl/filesystem/minimafs.c:1238-1241 | the length of the file with the settled record |
| `FileLength.NoWrap` | src/impl/filesystem/minimafs.c:1226-1241 | a file shorter than 2^32 bytes is settled as without wrapping |
| `FileLength.WrapsToo` | src/impl/filesystem/minimafs.c:1226-1241 | a file that is not shorter is not so with the header that wrapped lengths lead to either |
| `Stream.Handle.constructor` | src/impl/filesystem/minimafs.c:1641-1722 | an open file is valid in both modes and stands at its start |
| `Stream.Handle.Seek` | src/impl/filesystem/minimafs.c:1892-1897 | the position is clipped to the size |
| `Stream.Handle.ReadCached` | src/impl/filesystem/minimafs.c:1808-1838 | the one-block cache path returns the bytes at the position until the end of the run, with 32-bit offsets that wrap |
| `Stream.Handle.SeenWrapped` | src/impl/filesystem/minimafs.c:1808-1838 | positions whose offset reaches 2^32 read the run from its start |
| `Stream.Handle.Read` | src/impl/filesystem/minimafs.c:1797-1848 | the same in both modes; when the data lies in the run, the slice of the contents at the position |
| `Stream.Replay` | src/impl/filesystem/minimafs.c:1797-1897 | for every sequence of seeks and reads both modes return what slicing the contents returns and end at the same position |
| `Append.OldDataReader.Read` | src/impl/filesystem/minimafs.c:2698-2724 | returns as many of the next bytes as are left; with an unchanged disk they are the bytes of the run |
| `Append.Advance` | src/impl/filesystem/minimafs.c:2851-2882 | one round of the four-segment loop emits the next bytes and moves on in segment or position |
| `Append.NextBlock` | src/impl/filesystem/minimafs.c:2847-2884 | the inner loop ends and fills the block with its part of the image, zeros behind the footer |
| `Append.CopyAppend` | src/impl/filesystem/minimafs.c:2844-2892 | whenever the reads succeed, the new run holds its blocks of header, as many copied bytes as were asked for, new data and footer, zero-padded, and no other block changes; if the blocks read lie beside the new run the copied bytes that got into it are what they held |
| `Files.Open` | src/impl/filesystem/minimafs.c:1600-1722 | for any first block, the handle has the offset and the length that the header gives, and its mode; lengths whose 32-bit sum wraps included |
| `Files.OpenedAfter` | src/impl/filesystem/minimafs.c:1641-1645 | the data start behind the first marker, or with the run if there is none |
| `Files.LengthClipped` | src/impl/filesystem/minimafs.c:1646-1652 | what is opened lies in the run if and only if the claimed end is below 2^32; then it is as much of the claim as the run holds |
| `Files.OpenFile` | src/impl/filesystem/minimafs.c:1638-1656 | opening a file finds its data if and only if the DATALEN seen in the first block is its length, or is 0 with a FILELEN seen that is the length of the file |
| `Files.OpenReads` | src/impl/filesystem/minimafs.c:1797-1848 | reading all of an opened file gives its data under exactly that condition |
| `Files.TagInData` | src/impl/filesystem/minimafs.c:471-507 | a file whose data is @DATALEN:1@ is opened with length 1 |
| `Files.BaseAtLeast` | src/impl/filesystem/minimafs.c:509-553 | no header is as short as 93 bytes |
| `Files.SettledOk` | src/impl/filesystem/minimafs.c:1226-1241 | FILELEN is what is laid out if and only if the two passes settled, else one less |
| `Files.WrittenIsFile` | src/impl/filesystem/minimafs.c:1222-1310 | what the writer leaves in a run is a file with the settled record |
| `Files.PlanAppend` | src/impl/filesystem/minimafs.c:2783-2825 | the append is refused exactly when the header or its data marker is missing; otherwise it takes the old length from FILELEN, settles a new header and computes the number of blocks, with sums that wrap at 2^32 |
| `Files.OldDataFound` | src/impl/filesystem/minimafs.c:2794-2806 | of a file, the append finds the old data whole if and only if there is none or the FILELEN seen in the first block is the length of the file, and it reads inside the run if and only if that FILELEN, less the footer, is inside it |
| `Files.ReadsPastRun` | src/impl/filesystem/minimafs.c:2803-2806 | an append to a file whose data is @FILELEN:99999999@ reads past the file |
| `Files.LastByteLost` | src/impl/filesystem/minimafs.c:2803-2806 | an append to a file whose FILELEN did not settle keeps all but the last byte of the old data |
| `Files.AppendedIsFile` | src/impl/filesystem/minimafs.c:2807-2892 | what the append leaves in the new run is a file with the copied bytes and the new data if and only if the size of that, and its padding, stays below 2^32 |
| `Files.PlanWraps` | src/impl/filesystem/minimafs.c:2807-2825 | when the new size does not fit into 32 bits, the new run is shorter than the data |
| `Files.AppendWraps` | src/impl/filesystem/minimafs.c:2807-2825 | such as 20000 bytes appended to 4294950000: a length of 2704 bytes and two blocks at most |
| `FolderDesc.FitsExtended` | src/impl/filesystem/minimafs.c:1110-1130 | whether a folder with one more entry can be written does not depend on the entry |
| `Moves.TakenAndFreed` | src/impl/filesystem/minimafs.c:1986-1996 | a run that is taken and given back leaves the extent list as it was |
| `Moves.ChangedNotTracked` | src/impl/filesystem/minimafs.c:2521-2527 | when the changed entry does not fit the folder any more, the extent list has changed already |
| `MinimaFS.Place` | src/impl/filesystem/minimafs.c:1250-1263 | the run is reused or shrunk if it is long enough, else the first free run is taken and the old one freed; the list exchanges the two; failure, with nothing changed, exactly when no run is free |
| `MinimaFS.FindEntry` | src/impl/filesystem/minimafs.c:1358-1368 | the first entry of the name |
| `MinimaFS.FindFolder` | src/impl/filesystem/minimafs.c:1072-1081 | the first folder of the name |
| `MinimaFS.Drive.Refresh` | src/impl/filesystem/minimafs.c:930-948 | block 0 parses to the drive's descriptor, whose used and free blocks and sizes are those of the extent list; its other fields but the date are as before, and no other block changes |
| `MinimaFS.Drive.WriteDesc` | src/impl/filesystem/minimafs.c:1110-1143 | the block spells out the folder if it fits, otherwise nothing changes |
| `MinimaFS.Drive.Walk` | src/impl/filesystem/minimafs.c:1042-1094 | finds the folder that the path leads to in the tree |
| `MinimaFS.Drive.ReadDesc` | src/impl/filesystem/minimafs.c:1096-1108 | returns that folder |
| `MinimaFS.Drive.LookUp` | src/impl/filesystem/minimafs.c:1907-1918 | the parent folder of a path and the first entry of its name there |
| `MinimaFS.Drive.Delete` | src/impl/filesystem/minimafs.c:1899-1934 | succeeds exactly when the name is a file's; the entry is gone, every other file keeps its blocks, the volume stays sound; otherwise nothing changes |
| `MinimaFS.Drive.Rmdir` | src/impl/filesystem/minimafs.c:2021-2068 | the same for an empty folder that is the first entry of its name |
| `MinimaFS.Drive.Mkdir` | src/impl/filesystem/minimafs.c:1940-2019 | decides between done, refused and already there exactly; a new folder is the last entry of its parent and lies in the first free block; the volume stays sound |
| `MinimaFS.Drive.EnterFolder` | src/impl/filesystem/minimafs.c:1986-2018 | the new folder is entered and written exactly when its parent has room, otherwise nothing on the disk changes |
| `MinimaFS.Drive.WriteToDisk` | src/impl/filesystem/minimafs.c:1215-1332 | the run that the file lands in holds it and only block 0 changes besides; failure, with nothing changed, exactly when no run is free and the old one is too short |
| `MinimaFS.Drive.EnterNew` | src/impl/filesystem/minimafs.c:2513-2527 | the file has its entry if the folder has room; if not, the disk spells out the old tree while the list has one run more |
| `MinimaFS.Drive.EnterChanged` | src/impl/filesystem/minimafs.c:2521-2527 | the entry has its new run if the folder can be written; if not, the disk spells out the old tree while the list has exchanged the run |
| `MinimaFS.Drive.Create` | src/impl/filesystem/minimafs.c:1374-1469 | decides between done, refused and lost exactly, with what is left in each case; the volume stays sound unless lost |
| `MinimaFS.Drive.WriteFile` | src/impl/filesystem/minimafs.c:2453-2534 | the same for writing a file, new or not: done, it holds both segments and every other file keeps its blocks |
| `Headers.HeaderOnDisk` | src/impl/filesystem/minimafs.c:471-553 | of every file the header on the disk parses to its record |
| `Headers.CreatedSays` | src/impl/filesystem/minimafs.c:1374-1469 | after creating a file, its entry and the header on its disk block say name, folder, type, format, dates, not hidden, not runnable and no data |
| `Headers.WrittenSays` | src/impl/filesystem/minimafs.c:2453-2534 | the same after writing one, with the length of the data; a file that was there keeps its place, name and hidden flag |
| `MinimaFS.Drive.CopyAside` | src/impl/filesystem/minimafs.c:2807-2892 | the copy is made in the first free run of the length computed, with the old one in place; nothing is read and nothing changes when there is none |
| `MinimaFS.Drive.AppendTo` | src/impl/filesystem/minimafs.c:2726-2917 | the same for appending, whenever the reads that it makes succeed, whatever FILELEN says and whether or not the size wraps |
| `MinimaFS.Drive.MarkEntries` | src/impl/filesystem/minimafs.c:1192-1205 | marks the runs of one folder's entries and collects its subfolders |
| `MinimaFS.Drive.Scan` | src/impl/filesystem/minimafs.c:1175-1209 | ends, and marks exactly the runs named below the folder |
| `Mounting.Mount` | src/impl/filesystem/minimafs.c:2200-2249 | of a disk that spells out a tree, the rescan marks exactly the blocks of that tree, and the descriptor is the one read with the counts of the new list and the date; refused only when the device is smaller than the volume |
| `Mounting.Remount` | src/impl/filesystem/minimafs.c:2200-2249 | mounting what a sound drive left rebuilds the extent list, the free count and the descriptor that it kept but for the date, and changes block 0 only |
| `Mounting.Diverged` | src/impl/filesystem/minimafs.c:2521-2527 | after a loss the rescan rebuilds the list from before, which is not the one that the drive keeps |
| `Mounting.NamedButFree` | src/impl/filesystem/minimafs.c:2521-2527 | after a loss the blocks of the old run that are not in the new one are free, although the folder names them |
| `Mounting.Format` | src/impl/filesystem/minimafs.c:2272-2359 | refuses fewer than 16 blocks; otherwise an empty root in block 1, all but two blocks free, and a descriptor with number, name, size and date that block 0 parses to |
| `Runs.Step` | src/impl/filesystem/minimafs.c:1374-2917 | one operation has the effect stated for it, keeps the volume sound unless it is lost, and changes no more of the descriptor than counts and date |
| `Runs.CheckReads` | src/impl/filesystem/minimafs.c:2698-2724 | decides whether every block that an append reads can be read; one that is refused reads none |
| `Runs.Run` | src/impl/filesystem/minimafs.c:1374-2917 | a run of operations is a trace of moments, each step with the effect of its operation on the same volume and every moment before a loss sound; it ends when all are done, one is lost, or an append would read a block that is not there |
| `Runs.Lifecycle` | src/impl/filesystem/minimafs.c:2173-2359 | format, such a run, and mount: if nothing was lost, the same list, the same free count, the same tree, the same blocks but for block 0, and the same descriptor but for the date |
| `Runs.RunsDisjoint` | src/impl/filesystem/minimafs.c:774-794 | at every moment of a run before a loss, runs of distinct entries are disjoint, recorded as used, and off block 0 and the root |
| `Crowded.CrowdedFits` | src/impl/filesystem/minimafs.c:1124-1130 | a folder of 41 files that is within the limits of the writer, is not full and has no room |
| `Crowded.LongerDoesNotFit` | src/impl/filesystem/minimafs.c:1124-1130 | with the first file moved to block 51 and grown to ten blocks it is not within them |
| `Crowded.CrowdedMountable` | src/impl/filesystem/minimafs.c:2200-2249 | a disk of 51 blocks that spells out a volume with that folder |
| `Crowded.CreateIsLost` | src/impl/filesystem/minimafs.c:1437-1455 | creating a file there is lost |
| `Crowded.RewriteIsLost` | src/impl/filesystem/minimafs.c:2509-2527 | writing 36864 bytes to the first file is lost, and its old blocks, which the folder still names, are the first free ones |
| `Crowded.LoseCreate` | src/impl/filesystem/minimafs.c:1437-1455 | mounting that disk and creating a file: lost |
| `Crowded.LoseRewrite` | src/impl/filesystem/minimafs.c:2509-2527 | mounting that disk and writing to the first file: lost, with named blocks free |
| `Witnesses.LongNameMissing` | src/impl/filesystem/minimafs.c:1358-1368 | no name of 64 bytes or more is found in any folder |
| `Witnesses.LongNameAt` | src/impl/filesystem/minimafs.c:1445-1446 | such as the name of 64 letters a |
| `Witnesses.UnluckyFile` | src/impl/filesystem/minimafs.c:1226-1241 | for every type, format and date there is a path of folders with short names under which a new file of 92 bytes gets a FILELEN that is one less than what is laid out |
| `Sessions.OtherAlone` | src/impl/filesystem/minimafs.c:1374-2917 | an operation on another entry leaves a file's run and blocks as they were, and its path leads to it |
| `Sessions.FileSurvives` | src/impl/filesystem/minimafs.c:1374-2917 | so does a run of such operations, so that the file keeps its record and data |
| `Readback.OpenAt` | src/impl/filesystem/minimafs.c:1503-1722 | opens the file that the path names, and nothing else |
| `Readback.WrittenFound` | src/impl/filesystem/minimafs.c:2513-2523 | a file that was written is found by its path if and only if its name is shorter than 64 bytes |
| `Readback.WriteThenRead` | src/impl/filesystem/minimafs.c:1503-2534 | what is written to a path is found again under that condition, and then read back if and only if the lengths seen in its first block are those of the data |
| `Readback.RemountedFile` | src/impl/filesystem/minimafs.c:2200-2249 | a file has the same record and data after mounting again |
| `Readback.KeptWhole` | src/impl/filesystem/minimafs.c:2803-2806 | an append keeps the old data whole if the FILELEN seen settled, and all but its last byte if not |
| `Readback.AppendedFile` | src/impl/filesystem/minimafs.c:2807-2898 | after an append the path leads to a file with what was kept of the old data and the new data if that fits into 32 bits; if not, to a run too short for the data |
| `Readback.AppendedAny` | src/impl/filesystem/minimafs.c:2807-2898 | whatever FILELEN is seen, the file then has as many bytes as that claims and the new data, if and only if that fits into 32 bits; they are bytes of the old run if they lie in it |
| `Readback.AppendThenRead` | src/impl/filesystem/minimafs.c:2726-2917 | reading after an append gives just that, if and only if it fits into 32 bits and the lengths seen in the first block are its lengths |
| `Readback.WriteAppendsRead` | src/impl/filesystem/minimafs.c:1503-2917 | a write and any number of appends, traced with their effects up to one that is not done; as long as no tag shows and FILELEN settles, the path gives all pieces in order |
| `Wavefront.Termination` | tools/media/mosmedia.c:297-335 | no run makes more than h + n + 3wh moves, and a run has come to rest exactly when it has made that many |
| `Wavefront.FairCompletion` | tools/media/mosmedia.c:297-335 | every run of h + n + 3wh rounds in which each worker has a turn ends with all rows complete and the results of raster order |
| `ReadAhead.Termination` | tools/media/mosmedia.c:350-376 | a run has at most 10n + 9 such steps for n frames |
| `ReadAhead.FairCompletion` | tools/media/mosmedia.c:350-376 | every run of 10n + 10 fair rounds ends with both threads finished and every frame delivered in order |
| `Adpcm.EncodeAndDecode` | tools/media/mosplayer.py:731-751 | decoding what was encoded gives the encoder's predictors, mono and stereo |
| `Mpkg.ExtractEntry` | src/impl/compression/pkglib.c:116-204 | what an entry extracts to, with the refusals for its name, the length of its path, its range, its sizes and its method |
| `Mpkg.Unzip` | src/impl/compression/pkglib.c:218-321 | an archive is accepted exactly when magic, version and table are right, and then every entry is extracted in order |
| `Mpkg.ExtractItem` | src/impl/compression/pkglib.c:154-198 | an item whose name is safe and not too long comes out of its archive as it was |
| `Mpkg.Zip` | src/impl/compression/pkglib.c:452-616 | the archive of the items with just those payloads, which decode to them; refused exactly for no items, more than 16, or 2^32 bytes |
| `Mpkg.ArchiveRoundTrip` | src/impl/compression/pkglib.c:302-316 | extracting entry i of an archive gives item i |
| `Mpkg.ZipAndUnzip` | src/impl/compression/pkglib.c:218-616 | one to 16 items below 2^32 bytes are archived, and unpacking gives every extractable item back, in order |

## Left out

- Extents.Allocator.MarkUsed: memory for the extent array is always granted, as it is in every operation; when it is not, the source has changed the free count already.
- Extents.Allocator.FreeRun: as above.
- LzssEncoder.Compress: positions are unbounded integers with -1 for "none", the growing output buffer is a sequence, and the empty input gives the empty output where the kernel reports failure.
- Lzss.Decompress: sizes are unbounded integers instead of 32-bit ones.
- FileHeader.HeaderRead: strings are without the delimiters @, quote, newline and zero, and those printed bare do not end in a blank.
- FolderDesc.FolderRoundTrip: names are without comma, newline and zero.
- FileLength.SettlesExactly: headers up to 8996 bytes; a header always fits in 3000 (`Image.HeaderFits`).
- Files.Open: a first block without a zero byte ends at its end, where the source's buffer has no terminator.
- MinimaFS.Drive.AppendTo: every block that it reads can be read; when one cannot, the copying loop of the source makes no progress. `Runs.Run` stops before such an append.
- MinimaFS.Drive.Mkdir: names of 64 bytes and more are excluded; the source copies them past the end of the field.
- MinimaFS.Drive.Create: names, types and dates are within the formats; dates come from the clock as a parameter.
- MinimaFS.Drive.WriteFile: as above, and data sizes leave room for header and padding below 2^32.
- MinimaFS.Drive.WriteToDisk: data sizes leave room for header and padding below 2^32, beyond which the 32-bit sizes of the source wrap.
- Mounting.Mount: of disks that spell out a tree; the checks for a damaged storage.desc are in the body, but nothing is stated about damaged volumes.
- Readback.OpenAt: for reading; creating a missing file on open is not modelled.
- Readback.AppendedFile: files whose header as seen is within the formats and whose FILELEN as seen does not exceed the file; for any FILELEN there is `Readback.AppendedAny`.
- Readback.AppendThenRead: as above.
- Readback.WriteAppendsRead: names shorter than 64 bytes, and pieces that show no tag in the first block and with which FILELEN settles; the other cases are in `Readback.WriteThenRead` and `Readback.AppendThenRead`.
- Stream.Handle.Read: the file does not change while it is open.
- Wavefront.Confluence: the encoding of one macroblock is an abstract function of its four neighbours' results, which reads them at its end and holds anything in its own cell until then; atomic operations are single steps in one order.
- ReadAhead.InOrder: critical sections are single steps.
- Adpcm.EncodePair: the operands are evaluated from left to right, which Python fixes and C leaves open.
- Mpkg.ExtractEntry: ends where the file or directory is written; failures of the file system are left out.
- Mpkg.Unzip: as above, the target directory included.
- Mpkg.Build: total size below 2^32; caches, manifests and the parallel compression pool are left out.
- I/O errors: blocks read back what was written, and every write succeeds.
- minimafs_set_metadata, minimafs_write on open files, findinfile, configuration values, directory listings.
- Drive numbers and the prefix of a path, mounting several drives, passwords, self-test, unmounting.
- Locks, scratch pools, DMA buffers and the heap: every operation is one step.
- The .adi header, the motion and tile video codecs, and all user interface.
- Device drivers, memory management, scheduling, network and graphics.
