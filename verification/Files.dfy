/** Writing, opening and appending to a file, over its run of blocks. */
module Files {
  import opened Text
  import opened Options
  import opened Words
  import opened Tags
  import opened Descriptors
  import opened FileHeader
  import opened FileLength
  import opened Layout
  import opened Image
  import opened Stream
  import opened Append

  const STREAMING_THRESHOLD := 16 * 1024

  /** The run holds a file with this record and data. */
  ghost predicate IsFile(disk: Disk, start: nat, count: nat, m: FileMeta, data: string) {
    && MetaOk(m) && m.dataLength == |data| && 0 < m.fileLength <= |FileText(m, data)|
    && |FileText(m, data)| <= count * BLOCK_SIZE < WORD
    && RunHolds(disk, start, count, FileText(m, data))
  }

  lemma TextSize(m: FileMeta, data: string)
    ensures |FileText(m, data)| == |PrintHeader(m)| + |data| + FOOTER_SIZE
  {
    hide PrintHeader;
    assert |FOOTER| == FOOTER_SIZE;
  }

  lemma FileReadable(disk: Disk, start: nat, count: nat, m: FileMeta, data: string)
    requires IsFile(disk, start, count, m, data)
    ensures Readable(disk, start, count) && count > 0
    ensures start in disk && disk[start] == BlockOf(FileText(m, data), 0)
  {
    TextSize(m, data);
    hide FileText, MetaOk;
    forall b | InRun(b, start, count) ensures b in disk && |disk[b]| == BLOCK_SIZE {
      assert disk[b] == BlockOf(FileText(m, data), b - start);
    }
    assert InRun(start, start, count);
  }

  /** The bytes behind the header are the data. */
  lemma FileBytes(disk: Disk, start: nat, count: nat, m: FileMeta, data: string)
    requires IsFile(disk, start, count, m, data)
    ensures Readable(disk, start, count) && |PrintHeader(m)| + |data| + FOOTER_SIZE <= count * BLOCK_SIZE
    ensures Bytes(disk, start, count, |PrintHeader(m)|, |data|) == data
  {
    hide PrintHeader, MetaOk, Readable;
    TextSize(m, data);
    FileReadable(disk, start, count, m, data);
    var text, h := FileText(m, data), |PrintHeader(m)|;
    var x := Bytes(disk, start, count, h, |data|);
    forall k | 0 <= k < |data| ensures x[k] == data[k] {
      BlockOfByte(h + k, count);
      var b := start + (h + k) / BLOCK_SIZE;
      assert InRun(b, start, count) && disk[b] == BlockOf(text, b - start);
      assert x[k] == ByteAt(disk, start, count, h + k) == At(text, h + k);
      assert text[h + k] == data[k];
    }
  }

  /** Writing elsewhere leaves a file as it is. */
  lemma StillFile(before: Disk, after: Disk, start: nat, count: nat, m: FileMeta, data: string)
    requires IsFile(before, start, count, m, data) && SameRun(before, after, start, count)
    ensures IsFile(after, start, count, m, data)
  {
    hide MetaOk, FileText, BlockOf;
  }

  // ---- what the header says ----

  ghost function MetaOf(text: string): FileMeta { Or(ParseHeader(text), ZERO_META) }

  function OffsetOf(text: string): nat {
    var at := Find(text, DATA_LINE);
    if at == -1 then 0 else at + 7
  }

  /** DATALEN and FILELEN as the parser sees them: from the visible data if they occur there. */
  ghost function SeenData(m: FileMeta, data: string): nat
    requires |PrintHeader(m)| <= BLOCK_SIZE
  {
    SeeNumber(Visible(m, data), "DATALEN", m.dataLength, WORD)
  }

  ghost function SeenFile(m: FileMeta, data: string): nat
    requires |PrintHeader(m)| <= BLOCK_SIZE
  {
    SeeNumber(Visible(m, data), "FILELEN", m.fileLength, WORD)
  }

  /** What opening and appending read from the first block of a file. */
  lemma FileHeaderRead(disk: Disk, start: nat, count: nat, m: FileMeta, data: string)
    requires IsFile(disk, start, count, m, data)
    ensures Readable(disk, start, count) && count > 0 && start in disk && 7 <= |PrintHeader(m)| <= BLOCK_SIZE
    ensures var text := CString(disk[start]);
            && ParseHeader(text) == Some(AsRead(m, Visible(m, data)))
            && Find(text, DATA_LINE) == |PrintHeader(m)| - 7
  {
    hide PrintHeader, ParseHeader, Find, Visible, MetaOk, AsRead, BlockOf, CString, FileText, Readable;
    FileReadable(disk, start, count, m, data);
    FirstBlock(m, data);
    HeaderRead(m, Visible(m, data));
    FindData(m, Visible(m, data));
  }

  lemma SeenFields(m: FileMeta, data: string)
    requires |PrintHeader(m)| <= BLOCK_SIZE
    ensures AsRead(m, Visible(m, data)).dataLength == SeenData(m, data)
    ensures AsRead(m, Visible(m, data)).fileLength == SeenFile(m, data)
  {
    hide PrintHeader, Visible, ParseTag, Find, Key, ParseNumber, ParseBool;
  }

  /** Empty data shows no tag. */
  lemma NothingSeen(m: FileMeta)
    requires |PrintHeader(m)| <= BLOCK_SIZE
    ensures SeenData(m, []) == m.dataLength && SeenFile(m, []) == m.fileLength
  {
    HeaderTagNames();
    NoTag("DATALEN");
    NoTag("FILELEN");
    VisibleFree(m, [], "DATALEN");
    VisibleFree(m, [], "FILELEN");
    hide PrintHeader, Visible, Find, Key, ParseNumber, TagName;
  }

  lemma NoTag(tag: string)
    requires TagName(tag)
    ensures Find([], Key(tag)) == -1
  {
    KeyChars(tag);
  }

  // ---- opening ----

  /** DATALEN, or what FILELEN leaves for the data when DATALEN is zero, clipped to the run. The sum is one of
      32-bit numbers. */
  function LengthOf(meta: FileMeta, offset: nat, total: nat): nat {
    var n := if meta.dataLength == 0 && meta.fileLength > offset + FOOTER_SIZE then meta.fileLength - offset - FOOTER_SIZE
             else meta.dataLength;
    if (offset + n) % WORD > total then if total > offset then total - offset else 0 else n
  }

  /** Where the first block of a run says that the data are. */
  ghost function OpenedOffset(disk: Disk, start: nat, count: nat): nat
    requires Readable(disk, start, count)
  {
    if count * BLOCK_SIZE % WORD == 0 then 0 else
      assert InRun(start, start, count);
      OffsetOf(CString(disk[start]))
  }

  ghost function OpenedLength(disk: Disk, start: nat, count: nat): nat
    requires Readable(disk, start, count)
  {
    if count * BLOCK_SIZE % WORD == 0 then 0 else
      assert InRun(start, start, count);
      var text := CString(disk[start]);
      LengthOf(MetaOf(text), OffsetOf(text), count * BLOCK_SIZE % WORD)
  }

  lemma MetaWords(text: string)
    ensures MetaOf(text).dataLength < WORD && MetaOf(text).fileLength < WORD
  {
    hide LastNumber, LastString, LastBool;
  }

  lemma OffsetSmall(block: string)
    requires |block| == BLOCK_SIZE
    ensures OffsetOf(CString(block)) <= BLOCK_SIZE
  {
    var text := CString(block);
    var at := Find(text, DATA_LINE);
    assert at == -1 || PrefixAt(text, at, DATA_LINE);
  }

  lemma LengthSmall(meta: FileMeta, offset: nat, count: nat)
    requires meta.dataLength < WORD && meta.fileLength < WORD && offset <= BLOCK_SIZE && count * BLOCK_SIZE % WORD != 0
    ensures LengthOf(meta, offset, count * BLOCK_SIZE % WORD) < WORD
    ensures LengthOf(meta, offset, count * BLOCK_SIZE % WORD) <= STREAMING_THRESHOLD ==>
              offset + LengthOf(meta, offset, count * BLOCK_SIZE % WORD) <= count * BLOCK_SIZE
  {
    var total := count * BLOCK_SIZE % WORD;
    assert total <= count * BLOCK_SIZE && BLOCK_SIZE <= count * BLOCK_SIZE;
  }

  /** minimafs_open, from the directory entry on. */
  method Open(disk: Disk, start: nat, count: nat) returns (h: Handle)
    requires Readable(disk, start, count)
    ensures fresh(h) && h.Valid() && h.position == 0
    ensures h.disk == disk && h.start == start && h.count == count
    ensures h.dataOffset == OpenedOffset(disk, start, count) && h.dataSize == OpenedLength(disk, start, count)
    ensures h.streaming <==> h.dataSize > STREAMING_THRESHOLD
  {
    hide Find, ParseHeader, LengthOf;
    var total := count * BLOCK_SIZE % WORD;
    if total == 0 {
      h := new Handle(disk, start, count, 0, 0, false);
      return;
    }
    assert InRun(start, start, count);
    var first := CString(disk[start]);
    var parsed := ParseFileHeader(first);
    var meta := Or(parsed, ZERO_META);
    var offset := OffsetOf(first);
    var length := LengthOf(meta, offset, total);
    MetaWords(first);
    OffsetSmall(disk[start]);
    LengthSmall(meta, offset, count);
    h := new Handle(disk, start, count, offset, length, length > STREAMING_THRESHOLD);
  }

  /** The length that a header claims for the data behind it. */
  ghost function Claimed(meta: FileMeta, offset: nat): nat {
    if meta.dataLength > 0 then meta.dataLength else if meta.fileLength > offset + 5 then meta.fileLength - offset - 5 else 0
  }

  /** What is opened is as much of the claim as the run holds, and so lies in the run, except that a claim whose end
      is 2^32 or more is not clipped. */
  lemma LengthClipped(meta: FileMeta, offset: nat, total: nat)
    requires meta.dataLength < WORD && meta.fileLength < WORD && offset <= total < WORD
    ensures var n := Claimed(meta, offset); var length := LengthOf(meta, offset, total);
            && (offset + length <= total <==> offset + n < WORD)
            && (offset + n <= total || offset + n >= WORD ==> length == n)
            && (total < offset + n < WORD ==> offset + length == total)
  {
  }

  /** The data starts behind the first marker, or with the run when there is none. */
  lemma OpenedAfter(disk: Disk, start: nat, count: nat, k: nat)
    requires Readable(disk, start, count) && count * BLOCK_SIZE % WORD != 0 && start in disk
    ensures var text := CString(disk[start]);
            && (PrefixAt(text, k, "@DATA@\n") && (forall i :: 0 <= i < k ==> !PrefixAt(text, i, "@DATA@\n")) ==>
                  OpenedOffset(disk, start, count) == k + 7)
            && ((forall i :: 0 <= i <= |text| ==> !PrefixAt(text, i, "@DATA@\n")) ==> OpenedOffset(disk, start, count) == 0)
  {
    hide Find, CString, Readable;
    var text := CString(disk[start]);
    var at := Find(text, DATA_LINE);
    assert at == -1 || PrefixAt(text, at, "@DATA@\n");
  }

  /** The lengths seen in the first block are those of the data. */
  ghost predicate LengthSeen(m: FileMeta, data: string)
    requires |PrintHeader(m)| <= BLOCK_SIZE
  {
    SeenData(m, data) == |data| || (SeenData(m, data) == 0 && SeenFile(m, data) == |FileText(m, data)|)
  }

  lemma OpenedRight(meta: FileMeta, offset: nat, n: nat, total: nat)
    requires meta.dataLength < WORD && meta.fileLength < WORD && offset + n + FOOTER_SIZE <= total < WORD
    requires n == 0 ==> meta.dataLength == 0 && meta.fileLength <= offset + FOOTER_SIZE
    ensures LengthOf(meta, offset, total) == n <==>
            meta.dataLength == n || (meta.dataLength == 0 && meta.fileLength == offset + n + FOOTER_SIZE)
  {
  }

  /** Opening a file finds its data if and only if the DATALEN that can be seen in the first block, in the data or
      else in the header, is its length, or is 0 with a FILELEN that is the length of the file. */
  lemma OpenFile(disk: Disk, start: nat, count: nat, m: FileMeta, data: string)
    requires IsFile(disk, start, count, m, data)
    ensures Readable(disk, start, count) && |PrintHeader(m)| <= BLOCK_SIZE
    ensures OpenedOffset(disk, start, count) == |PrintHeader(m)|
    ensures OpenedLength(disk, start, count) == |data| <==> LengthSeen(m, data)
  {
    hide PrintHeader, ParseHeader, Find, Visible, LengthOf, AsRead, BlockOf, CString, FileText, Readable, SeenData, SeenFile, MetaOk;
    FileHeaderRead(disk, start, count, m, data);
    TextSize(m, data);
    SeenFields(m, data);
    if data == [] { NothingSeen(m); }
    SeenWords(m, data);
    OpenedRight(AsRead(m, Visible(m, data)), |PrintHeader(m)|, |data|, count * BLOCK_SIZE);
  }

  lemma SeenWords(m: FileMeta, data: string)
    requires |PrintHeader(m)| <= BLOCK_SIZE
    ensures m.dataLength < WORD ==> SeenData(m, data) < WORD
    ensures m.fileLength < WORD ==> SeenFile(m, data) < WORD
  {
    hide PrintHeader, Visible, Find, Key, ParseNumber;
  }

  /** The same for the whole of what an open file reads. */
  lemma OpenReads(h: Handle, m: FileMeta, data: string)
    requires IsFile(h.disk, h.start, h.count, m, data)
    requires Readable(h.disk, h.start, h.count)
    requires h.dataOffset == OpenedOffset(h.disk, h.start, h.count) && h.dataSize == OpenedLength(h.disk, h.start, h.count)
    ensures |PrintHeader(m)| <= BLOCK_SIZE
    ensures h.Seen(0, h.dataSize) == data <==> LengthSeen(m, data)
  {
    hide PrintHeader, IsFile, Readable, OpenedOffset, OpenedLength, LengthSeen;
    OpenFile(h.disk, h.start, h.count, m, data);
    FileBytes(h.disk, h.start, h.count, m, data);
    FileBelow(h.disk, h.start, h.count, m, data);
    if h.dataSize <= |data| {
      h.SeenInside(0, h.dataSize);
      assert h.dataSize == |data| ==> h.Contents() == data;
    } else {
      h.SeenAtLeast(0, h.dataSize, |data| + 1);
    }
  }

  lemma FileBelow(disk: Disk, start: nat, count: nat, m: FileMeta, data: string)
    requires IsFile(disk, start, count, m, data)
    ensures count * BLOCK_SIZE < WORD
  {
  }

  /** Data that fits behind the header in the first block is all visible. */
  lemma VisibleAll(m: FileMeta, data: string)
    requires |PrintHeader(m)| + |data| + FOOTER_SIZE <= BLOCK_SIZE && NoNul(data)
    ensures Visible(m, data) == data + FOOTER
  {
    hide PrintHeader;
    var h, b, n := |PrintHeader(m)|, BlockOf(FileText(m, data), 0), |data| + FOOTER_SIZE;
    var s := b[h..];
    assert |FOOTER| == FOOTER_SIZE && FileText(m, data) == PrintHeader(m) + (data + FOOTER);
    forall k | 0 <= k < n ensures s[k] == (data + FOOTER)[k] != NUL {
      assert s[k] == b[h + k] == At(FileText(m, data), h + k);
      assert k >= |data| ==> (data + FOOTER)[k] == FOOTER[k - |data|];
    }
    if n < |s| {
      assert s[n] == b[h + n] == At(FileText(m, data), h + n) == NUL;
      IndexOfIs(s, NUL, n);
    } else {
      var i := IndexOf(s, NUL);
      assert i == |s|;
    }
    assert s[..n] == data + FOOTER;
  }

  /** The value of a tag at the start of the text. */
  lemma TagFirst(tag: string, digits: string, rest: string)
    requires TagName(tag) && 0 < |digits| < 32 && forall i :: 0 <= i < |digits| ==> IsDigit(digits[i])
    requires digits[0] != '0'
    ensures Find(Key(tag) + digits + "@" + rest, Key(tag)) == 0
    ensures ParseNumber(Key(tag) + digits + "@" + rest, tag) == Value(digits, 10) % LONG
  {
    var s := Key(tag) + digits + "@" + rest;
    assert s[..|Key(tag)|] == Key(tag);
    var t := s[|Key(tag)|..];
    assert t == digits + "@" + rest;
    IndexOfIs(t, '@', |digits|);
    assert t[..|digits|] == digits;
    DecimalValueIs(digits);
    assert ParseTag(s, tag, 32) == Some(digits) by { assert !Blank(digits[|digits| - 1]); }
    hide Find, Key, Value, DecimalValue;
  }

  /** A number tag as the whole data. */
  lemma NumberInData(m: FileMeta, tag: string, digits: string)
    requires MetaOk(m) && TagName(tag) && |tag| < 32
    requires 0 < |digits| < 32 && digits[0] != '0' && forall i :: 0 <= i < |digits| ==> IsDigit(digits[i])
    ensures |PrintHeader(m)| <= BLOCK_SIZE
    ensures var v := Visible(m, Key(tag) + digits + "@"); Find(v, Key(tag)) == 0 && ParseNumber(v, tag) == Value(digits, 10) % LONG
  {
    hide PrintHeader, MetaOk, Visible, Find, ParseNumber, Value;
    HeaderFits(m);
    var data := Key(tag) + digits + "@";
    KeyChars(tag);
    forall i | 0 <= i < |data| ensures data[i] != NUL {
      assert i < |Key(tag)| ==> data[i] == Key(tag)[i];
      assert 0 < i <= |tag| ==> Key(tag)[1 + (i - 1)] == tag[i - 1] && TagChar(tag[i - 1]);
      assert |Key(tag)| <= i < |Key(tag)| + |digits| ==> data[i] == digits[i - |Key(tag)|];
    }
    VisibleAll(m, data);
    TagFirst(tag, digits, FOOTER);
  }

  lemma One()
    ensures Key("DATALEN") + "1" + "@" == "@DATALEN:1@" && Value("1", 10) == 1
  {
    assert Value("", 10) == 0;
    ValueSnoc("", '1', 10);
    assert "" + ['1'] == "1";
  }

  /** A file whose data is a DATALEN tag is opened with the length that the tag claims. */
  lemma TagInData(m: FileMeta)
    requires MetaOk(m)
    ensures |PrintHeader(m)| <= BLOCK_SIZE && SeenData(m, "@DATALEN:1@") == 1 && !LengthSeen(m, "@DATALEN:1@")
  {
    hide PrintHeader, Visible, Find, ParseNumber, Value, Key, TagName, MetaOk, FileText;
    HeaderTagNames();
    NumberInData(m, "DATALEN", "1");
    One();
  }

  /** A FILELEN tag in the data is believed too. */
  lemma FilelenInData(m: FileMeta)
    requires MetaOk(m)
    ensures |PrintHeader(m)| <= BLOCK_SIZE && SeenFile(m, "@FILELEN:99999999@") == 99_999_999
  {
    hide PrintHeader, Visible, Find, ParseNumber, Value, Key, TagName, MetaOk;
    HeaderTagNames();
    NumberInData(m, "FILELEN", "99999999");
    NineNines();
    assert Key("FILELEN") + "99999999" + "@" == "@FILELEN:99999999@" by { FilelenText(); }
  }

  lemma FilelenText()
    ensures Key("FILELEN") + "99999999" + "@" == "@FILELEN:99999999@"
  {
  }

  lemma NineNines()
    ensures Value("99999999", 10) == 99_999_999
  {
    ValueDigits(99_999_999, 10);
    assert Digits(9, 10) == "9" && Digits(99, 10) == "99" && Digits(999, 10) == "999" && Digits(9999, 10) == "9999";
    assert Digits(99_999, 10) == "99999" && Digits(999_999, 10) == "999999" && Digits(9_999_999, 10) == "9999999";
    assert Digits(99_999_999, 10) == "99999999";
  }

  // ---- writing ----

  /** Room for the header, the footer and the padding of the last block in 32-bit lengths. */
  ghost predicate SizeOk(n: nat) { n + 3 * BLOCK_SIZE < WORD }

  lemma WidthWord(n: nat)
    requires n < WORD
    ensures Width(n) <= 10
  {
    Powers();
    assert Power10(6) == 1_000_000 && Power10(8) == 100_000_000;
    assert Power10(10) == 10_000_000_000;
    DecimalFits(n, 10);
  }

  lemma SizeBound(m: FileMeta, n: nat)
    requires MetaOk(m) && SizeOk(n)
    ensures FileSize(m, n) <= n + BLOCK_SIZE && BlockCount(FileSize(m, n)) * BLOCK_SIZE < WORD
  {
    hide PrintHeader, Decimal, Clean;
    HeaderFits(m.(dataLength := n, fileLength := 0));
    var base := Base(m.(dataLength := n));
    WidthWord(n + FOOTER_SIZE);
    WidthWord(SecondLength(base, n));
    WidthWord(Recorded(base, n));
  }

  lemma SettledOk(m: FileMeta, data: string)
    requires MetaOk(m) && FileSize(m, |data|) < WORD
    ensures var meta := SettledMeta(m, |data|);
            && MetaOk(meta) && meta.dataLength == |data| && 0 < meta.fileLength <= |FileText(meta, data)| == FileSize(m, |data|)
            && (meta.fileLength == |FileText(meta, data)| <==> Settles(Base(m.(dataLength := |data|)), |data|))
            && |FileText(meta, data)| <= meta.fileLength + 1
  {
    hide PrintHeader, Clean, Decimal, Base;
    RecordedFits(Base(m.(dataLength := |data|)), |data|);
    GapAtMostOne(Base(m.(dataLength := |data|)), |data|);
    SettledSize(m, |data|);
    TextSize(SettledMeta(m, |data|), data);
  }

  /** What the block loop leaves behind is a file. */
  lemma WrittenIsFile(disk: Disk, start: nat, count: nat, m: FileMeta, data: string)
    requires MetaOk(m) && count == BlockCount(FileSize(m, |data|)) && count * BLOCK_SIZE < WORD
    requires RunHolds(disk, start, count, FileText(SettledMeta(m, |data|), data))
    ensures IsFile(disk, start, count, SettledMeta(m, |data|), data)
  {
    hide PrintHeader, MetaOk, RunHolds, FileText, SettledMeta, FileSize;
    SettledOk(m, data);
  }

  // ---- files whose FILELEN falls short ----

  lemma LineAtLeast(f: Field)
    ensures |Line(f)| >= |f.tag| + 4
  {
  }

  lemma FourAtLeast(f: seq<Field>, rest: seq<Field>)
    requires |f| == 4
    ensures |Lines(f + rest)| >= |Lines(rest)| + 4 * 4 + |f[0].tag| + |f[1].tag| + |f[2].tag| + |f[3].tag|
  {
    hide Line, Lines;
    LineAtLeast(f[0]);
    LineAtLeast(f[1]);
    LineAtLeast(f[2]);
    LineAtLeast(f[3]);
    LinesCons(f[3], rest);
    LinesCons(f[2], [f[3]] + rest);
    LinesCons(f[1], [f[2]] + ([f[3]] + rest));
    LinesCons(f[0], [f[1]] + ([f[2]] + ([f[3]] + rest)));
    assert f + rest == [f[0]] + ([f[1]] + ([f[2]] + ([f[3]] + rest)));
  }

  /** No header is as short as the shorter lengths for which FILELEN does not settle. */
  lemma BaseAtLeast(m: FileMeta)
    ensures Base(m) > 93
  {
    hide Line, Lines, HeaderFields, Decimal, RunFields, Hex;
    var f := HeaderFields(m.(fileLength := 0));
    HeaderFieldList(m.(fileLength := 0));
    FourAtLeast(f[4..8], f[8..]);
    FourAtLeast(f[..4], f[4..]);
    assert f[4..8] + f[8..] == f[4..] && f[..4] + f[4..] == f;
  }

  /** A longer parent folder makes the header longer by as much. */
  lemma ParentLength(m: FileMeta, s: string)
    ensures |PrintHeader(m.(parentFolder := s))| == |PrintHeader(m.(parentFolder := ""))| + |s|
  {
    hide Decimal, HeaderFields, Lines;
    var a, b := HeaderFields(m.(parentFolder := s)), HeaderFields(m.(parentFolder := ""));
    SameButParent(m, s);
    LinesSplit(a, 7);
    LinesSplit(b, 7);
  }

  lemma SameButParent(m: FileMeta, s: string)
    ensures var a, b := HeaderFields(m.(parentFolder := s)), HeaderFields(m.(parentFolder := ""));
            && |a| > 7 && |b| > 7 && a[..7] == b[..7] && a[8..] == b[8..]
            && a[7] == Quoted("PARENTFOLDER", s) && b[7] == Quoted("PARENTFOLDER", "")
  {
    SameRunFields(m.(parentFolder := s), m.(parentFolder := ""));
    hide HeaderFields, Number, Quoted, Bare, Flag, RunFields;
    AroundParent(m.(parentFolder := s));
    AroundParent(m.(parentFolder := ""));
  }

  lemma AroundParent(m: FileMeta)
    ensures var f := HeaderFields(m);
            && |f| > 7 && f[7] == Quoted("PARENTFOLDER", m.parentFolder)
            && f[..7] == [Bare("FILETYPE", m.filetype), Bare("FILEFORMAT", m.fileformat), Number("FILELEN", m.fileLength),
                          Number("DATALEN", m.dataLength), Quoted("FILENAME", m.filename), Quoted("CREATEDDATE", m.created),
                          Quoted("LASTCHANGED", m.lastChanged)]
            && f[8..] == RunFields(m) + [Bare("HIDDEN", Flag(m.hidden))]
  {
    hide Number, Quoted, Bare, Flag, RunFields;
  }

  /** A header without a folder, for a file that cannot be run. */
  lemma ShortHeader(m: FileMeta)
    requires MetaOk(m) && !m.runnable && m.parentFolder == [] && |m.filename| <= 1
    ensures |PrintHeader(m)| <= 500
  {
    NumberOk(m.fileLength);
    NumberOk(m.dataLength);
    ShortEnd(m);
    hide Line, Decimal, Lines, Clean, RunFields, Flag;
    var rest := RunFields(m) + [Bare("HIDDEN", Flag(m.hidden))];
    var f := [Bare("FILETYPE", m.filetype), Bare("FILEFORMAT", m.fileformat),
              Number("FILELEN", m.fileLength), Number("DATALEN", m.dataLength),
              Quoted("FILENAME", m.filename), Quoted("CREATEDDATE", m.created),
              Quoted("LASTCHANGED", m.lastChanged), Quoted("PARENTFOLDER", m.parentFolder)];
    assert HeaderFields(m) == f + rest;
    LinesEight(f, rest);
  }

  lemma ShortEnd(m: FileMeta)
    requires !m.runnable
    ensures |Lines(RunFields(m) + [Bare("HIDDEN", Flag(m.hidden))])| <= 50
  {
    hide Line, Lines;
    var a, b := Bare("RUNNABLE", "False"), Bare("HIDDEN", Flag(m.hidden));
    assert RunFields(m) + [b] == [a] + ([b] + []);
    LinesCons(a, [b] + []);
    LinesCons(b, []);
    LineLength(a);
    LineLength(b);
    LinesEmpty();
  }

  // ---- appending ----

  datatype Plan = Plan(meta: FileMeta, header: string, offset: nat, oldLen: nat, count: nat)

  /** The blocks for that many bytes, with 32-bit sums. */
  function WrappedCount(size: nat): nat { (size % WORD + BLOCK_SIZE - 1) % WORD / BLOCK_SIZE }

  /** The length of the old data, from FILELEN. */
  function OldLength(meta: FileMeta, offset: nat, count: nat): nat {
    var length := if meta.fileLength == 0 then count * BLOCK_SIZE % WORD else meta.fileLength;
    if length > offset + FOOTER_SIZE then length - offset - FOOTER_SIZE else 0
  }

  /** The old file has a header with its data marker. */
  ghost predicate Recognised(text: string) { ParseHeader(text).Some? && Find(text, DATA_LINE) != -1 }

  /** What the first half of minimafs_append_file reads and settles; the new length and the size wrap at 2^32. */
  ghost function Planned(text: string, count: nat, n: nat, now: string): Plan {
    var offset := OffsetOf(text);
    var oldLen := OldLength(MetaOf(text), offset, count);
    var newLen := (oldLen + n) % WORD;
    var meta := WrappedMeta(MetaOf(text).(lastChanged := now), newLen);
    var header := PrintHeader(meta);
    Plan(meta, header, offset, oldLen, WrappedCount(|header| + newLen + FOOTER_SIZE))
  }

  method PlanAppend(first: string, count: nat, dataLen: nat, now: string) returns (plan: Option<Plan>)
    ensures plan == if Recognised(CString(first)) then Some(Planned(CString(first), count, dataLen, now)) else None
  {
    hide ParseHeader, Find, PrintHeader, WrappedMeta, WrappedCount;
    var text := CString(first);
    var parsed := ParseFileHeader(text);
    if parsed == None { return None; }
    var at := Find(text, DATA_LINE);
    if at == -1 { return None; }
    var offset := at + 7;
    var oldLen := OldLength(parsed.value, offset, count);
    var newLen := (oldLen + dataLen) % WORD;
    var meta, header := SettleHeader(parsed.value.(lastChanged := now), newLen);
    plan := Some(Plan(meta, header, offset, oldLen, WrappedCount(|header| + newLen + FOOTER_SIZE)));
  }

  /** The length of the old file as an append sees it: FILELEN, or the whole run when that is 0. */
  ghost function SeenSize(m: FileMeta, data: string, count: nat): nat
    requires |PrintHeader(m)| <= BLOCK_SIZE
  {
    if SeenFile(m, data) == 0 then count * BLOCK_SIZE else SeenFile(m, data)
  }

  /** Of a file, an append finds the old data whole if and only if the length seen is that of the file, or there is
      no data; it reads inside the run if and only if the length seen, less the footer, is inside it. */
  lemma OldDataFound(disk: Disk, start: nat, count: nat, m: FileMeta, data: string)
    requires IsFile(disk, start, count, m, data)
    ensures start in disk && |PrintHeader(m)| <= BLOCK_SIZE
    ensures var text := CString(disk[start]);
            && Recognised(text) && MetaOf(text) == AsRead(m, Visible(m, data)) && OffsetOf(text) == |PrintHeader(m)|
            && var n := OldLength(MetaOf(text), OffsetOf(text), count);
               var size := SeenSize(m, data, count);
            && (n == |data| <==> data == [] || size == |FileText(m, data)|)
            && (OffsetOf(text) + n <= count * BLOCK_SIZE <==> size <= count * BLOCK_SIZE + FOOTER_SIZE)
            && n == if size > OffsetOf(text) + FOOTER_SIZE then size - OffsetOf(text) - FOOTER_SIZE else 0
  {
    hide PrintHeader, ParseHeader, Find, Visible, MetaOk, AsRead, BlockOf, CString, Readable, SeenFile, FileText;
    FileHeaderRead(disk, start, count, m, data);
    TextSize(m, data);
    SeenFields(m, data);
    if data == [] { NothingSeen(m); }
  }

  /** The file with the old and the new data, and its padding, is shorter than 2^32 bytes. */
  ghost predicate AppendFits(m: FileMeta, n: nat) { FileSize(m, n) + BLOCK_SIZE <= WORD }

  lemma CountFits(size: nat)
    requires size + BLOCK_SIZE <= WORD
    ensures WrappedCount(size) == BlockCount(size) && BlockCount(size) * BLOCK_SIZE < WORD
  {
  }

  lemma CountShort(size: nat)
    ensures WrappedCount(size) <= BlockCount(size % WORD) && WrappedCount(size) * BLOCK_SIZE < WORD
    ensures size % WORD + BLOCK_SIZE > WORD ==> WrappedCount(size) == 0
  {
  }

  /** The new run is never longer than the image. */
  lemma PlanCount(text: string, count: nat, data: string, now: string)
    ensures var plan := Planned(text, count, |data|, now);
            plan.count <= BlockCount(|plan.header| + plan.oldLen + |data| + FOOTER_SIZE)
  {
    hide PrintHeader, ParseHeader, Find, WrappedMeta, WrappedCount, MetaOf, OffsetOf, OldLength;
    var plan := Planned(text, count, |data|, now);
    CountShort(|plan.header| + (plan.oldLen + |data|) % WORD + FOOTER_SIZE);
  }

  /** In that case nothing wraps. */
  lemma PlanFits(text: string, count: nat, n: nat, now: string)
    requires AppendFits(MetaOf(text).(lastChanged := now), Planned(text, count, n, now).oldLen + n)
    ensures var plan, m := Planned(text, count, n, now), MetaOf(text).(lastChanged := now);
            && plan.meta == SettledMeta(m, plan.oldLen + n) && |plan.header| + plan.oldLen + n + FOOTER_SIZE == FileSize(m, plan.oldLen + n)
            && plan.count == BlockCount(FileSize(m, plan.oldLen + n)) && plan.count * BLOCK_SIZE < WORD
  {
    hide PrintHeader, ParseHeader, Find, WrappedMeta, SettledMeta, FileSize, WrappedCount, MetaOf, OffsetOf, OldLength;
    var plan, m := Planned(text, count, n, now), MetaOf(text).(lastChanged := now);
    SizeAtLeast(m, plan.oldLen + n);
    SettledNoWrap(m, plan.oldLen + n);
    CountFits(FileSize(m, plan.oldLen + n));
  }

  lemma SizeAtLeast(m: FileMeta, n: nat)
    ensures FileSize(m, n) >= n + FOOTER_SIZE
  {
    hide PrintHeader, Decimal;
  }

  /** Otherwise the new run is too short even for the data. */
  lemma PlanWraps(text: string, count: nat, n: nat, now: string)
    requires MetaOk(MetaOf(text).(lastChanged := now))
    requires !AppendFits(MetaOf(text).(lastChanged := now), Planned(text, count, n, now).oldLen + n)
    ensures var plan := Planned(text, count, n, now); plan.count * BLOCK_SIZE < plan.oldLen + n
  {
    hide PrintHeader, ParseHeader, Find, WrappedMeta, FileSize, WrappedCount, MetaOf, OffsetOf, OldLength, MetaOk;
    var plan, m := Planned(text, count, n, now), MetaOf(text).(lastChanged := now);
    var data := plan.oldLen + n;
    if data < WORD {
      WrappedHeader(m, data);
      SizeNear(m, data);
      if FileSize(m, data) < WORD { SettledNoWrap(m, data); } else { SettledWraps(m, data); }
    }
    CountTooSmall(|plan.header|, data);
  }

  lemma CountTooSmall(header: nat, data: nat)
    requires data < WORD ==> header <= 3000 && data + 4000 + BLOCK_SIZE > WORD && header + data + FOOTER_SIZE + BLOCK_SIZE > WORD
    ensures WrappedCount(header + data % WORD + FOOTER_SIZE) * BLOCK_SIZE < data
  {
    hide WrappedCount;
    var size := header + data % WORD + FOOTER_SIZE;
    CountShort(size);
    if data < WORD && size >= WORD {
      assert size % WORD == size - WORD <= 3004;
      assert WrappedCount(size) <= 1;
    }
  }

  lemma WrappedHeader(m: FileMeta, n: nat)
    requires MetaOk(m) && n < WORD
    ensures |PrintHeader(WrappedMeta(m, n))| <= 3000 && Base(m.(dataLength := n)) <= 3000
  {
    hide PrintHeader, Clean, Decimal;
    HeaderFits(WrappedMeta(m, n));
    HeaderFits(m.(dataLength := n, fileLength := 0));
  }

  lemma SizeNear(m: FileMeta, n: nat)
    requires MetaOk(m) && n < WORD
    ensures FileSize(m, n) <= n + 4000
  {
    hide PrintHeader, Clean, Decimal;
    HeaderFits(m.(dataLength := n, fileLength := 0));
    var base := Base(m.(dataLength := n));
    WideNumber(9_000_000_000);
    WidthMono(n + FOOTER_SIZE, 9_000_000_000);
    WidthMono(SecondLength(base, n), 9_000_000_000);
    WidthMono(Recorded(base, n), 9_000_000_000);
  }

  /** What an append leaves in the new run, when the header it read is within the formats, is a file with the bytes
      that were copied and the new data if and only if that fits into 32 bits. */
  lemma AppendedIsFile(disk: Disk, text: string, count: nat, data: string, now: string, newStart: nat, copied: string)
    requires MetaOk(MetaOf(text).(lastChanged := now))
    requires var plan := Planned(text, count, |data|, now);
             |copied| == plan.oldLen && RunHolds(disk, newStart, plan.count, plan.header + copied + data + FOOTER)
    ensures var plan := Planned(text, count, |data|, now);
            IsFile(disk, newStart, plan.count, plan.meta, copied + data) <==>
            AppendFits(MetaOf(text).(lastChanged := now), plan.oldLen + |data|)
  {
    hide PrintHeader, ParseHeader, Find, RunHolds, IsFile, MetaOk, SettledMeta, FileSize, AppendFits, Planned;
    var plan := Planned(text, count, |data|, now);
    var m := MetaOf(text).(lastChanged := now);
    if AppendFits(m, plan.oldLen + |data|) {
      PlanFits(text, count, |data|, now);
      PlanHeader(text, count, |data|, now);
      assert plan.header + copied + data == plan.header + (copied + data);
      WrittenIsFile(disk, newStart, plan.count, m, copied + data);
    } else {
      PlanWraps(text, count, |data|, now);
      FileRoom(disk, newStart, plan.count, plan.meta, copied + data);
    }
  }

  lemma PlanHeader(text: string, count: nat, n: nat, now: string)
    ensures var plan := Planned(text, count, n, now); plan.header == PrintHeader(plan.meta)
  {
    hide PrintHeader, ParseHeader, Find, WrappedMeta, WrappedCount, MetaOf, OffsetOf, OldLength;
  }

  lemma FileRoom(disk: Disk, start: nat, count: nat, m: FileMeta, data: string)
    ensures IsFile(disk, start, count, m, data) ==> |data| <= count * BLOCK_SIZE
  {
    hide PrintHeader, RunHolds, MetaOk;
  }

  /** The beginning of a file's data, as the reader copies it. */
  lemma FilePart(disk: Disk, start: nat, count: nat, m: FileMeta, data: string, n: nat)
    requires IsFile(disk, start, count, m, data) && n <= |data|
    ensures Readable(disk, start, count) && |PrintHeader(m)| + n <= count * BLOCK_SIZE
    ensures Bytes(disk, start, count, |PrintHeader(m)|, n) == data[..n]
  {
    hide PrintHeader, IsFile, Readable, Bytes;
    FileBytes(disk, start, count, m, data);
    BytesPart(disk, start, count, |PrintHeader(m)|, |data|, 0, n);
    assert data[0..n] == data[..n];
  }

  /** When FILELEN did not settle and no other is seen, an append keeps all but the last byte of the old data. */
  lemma LastByteLost(disk: Disk, start: nat, count: nat, m: FileMeta, data: string)
    requires IsFile(disk, start, count, m, data) && data != [] && |PrintHeader(m)| <= BLOCK_SIZE
    requires SeenFile(m, data) == m.fileLength == |FileText(m, data)| - 1
    ensures start in disk && Readable(disk, start, count)
    ensures var text := CString(disk[start]);
            var n := OldLength(MetaOf(text), OffsetOf(text), count);
            && n == |data| - 1 && OffsetOf(text) + n <= count * BLOCK_SIZE
            && Bytes(disk, start, count, OffsetOf(text), n) == data[..|data| - 1]
  {
    hide PrintHeader, ParseHeader, Find, CString, Readable, SeenFile, SeenSize, FileText, IsFile, Bytes, OldLength, MetaOf, OffsetOf,
         Recognised, AsRead, Visible;
    FileSeen(disk, start, count, m, data);
    SeenShort(m, data, count);
    OldDataFound(disk, start, count, m, data);
    FilePart(disk, start, count, m, data, |data| - 1);
  }

  lemma SeenShort(m: FileMeta, data: string, count: nat)
    requires |PrintHeader(m)| <= BLOCK_SIZE && SeenFile(m, data) == m.fileLength == |FileText(m, data)| - 1 && m.fileLength > 0
    ensures SeenSize(m, data, count) == |PrintHeader(m)| + |data| + FOOTER_SIZE - 1
  {
    hide PrintHeader, SeenFile;
    TextSize(m, data);
  }

  lemma FileSeen(disk: Disk, start: nat, count: nat, m: FileMeta, data: string)
    requires IsFile(disk, start, count, m, data)
    ensures 0 < m.fileLength && |FileText(m, data)| <= count * BLOCK_SIZE
  {
  }

  /** A FILELEN tag in the data takes an append out of the file's run. */
  lemma ReadsPastRun(disk: Disk, start: nat, count: nat, m: FileMeta)
    requires IsFile(disk, start, count, m, "@FILELEN:99999999@") && count < 24_000
    ensures start in disk
    ensures var text := CString(disk[start]);
            OffsetOf(text) + OldLength(MetaOf(text), OffsetOf(text), count) > count * BLOCK_SIZE
  {
    hide PrintHeader, ParseHeader, Find, CString, SeenFile, FileText, IsFile, OldLength, MetaOf, OffsetOf, Recognised;
    FileRecord(disk, start, count, m, "@FILELEN:99999999@");
    FilelenInData(m);
    OldDataFound(disk, start, count, m, "@FILELEN:99999999@");
  }

  /** Appending 20000 bytes to a file of 4294950000: the new length wraps to 2704 bytes, and two blocks are enough. */
  lemma AppendWraps(disk: Disk, start: nat, count: nat, m: FileMeta, held: string, now: string)
    requires IsFile(disk, start, count, m, held) && |held| == 4_294_950_000 && |PrintHeader(m)| <= BLOCK_SIZE
    requires SeenFile(m, held) == |FileText(m, held)| && MetaOk(AsRead(m, Visible(m, held)).(lastChanged := now))
    ensures start in disk
    ensures var plan := Planned(CString(disk[start]), count, 20_000, now);
            plan.oldLen == |held| && plan.meta.dataLength == 2704 && plan.count <= 2
  {
    hide PrintHeader, ParseHeader, Find, CString, SeenFile, FileText, IsFile, OldLength, MetaOf, OffsetOf, Recognised, AsRead, Visible, MetaOk,
         WrappedCount, WrappedLength, Base;
    TextSize(m, held);
    OldDataFound(disk, start, count, m, held);
    var plan := Planned(CString(disk[start]), count, 20_000, now);
    assert plan.oldLen == |held| && (plan.oldLen + 20_000) % WORD == 2704;
    WrappedHeader(MetaOf(CString(disk[start])).(lastChanged := now), 2704);
    CountShort(|plan.header| + 2704 + FOOTER_SIZE);
  }

  lemma FileRecord(disk: Disk, start: nat, count: nat, m: FileMeta, data: string)
    requires IsFile(disk, start, count, m, data)
    ensures MetaOk(m)
  {
  }
}
