/** storage.desc: printed as tagged lines and parsed back, with the number and flag fields that the file header
    shares. */
module Descriptors {
  import opened Text
  import opened Options
  import opened Words
  import opened Tags

  const MAGIC := 0x4D49_4E46

  // ---- numbers, flags and strings as field values ----

  lemma DecimalFits(n: nat, k: nat)
    requires n < Power10(k) && k > 0
    ensures |Decimal(n)| <= k
  {
    DecimalLength(n);
    if n > 0 && |Decimal(n)| > k {
      PowerMono(k, |Decimal(n)| - 1);
    }
  }

  lemma {:induction false} PowerMono(a: nat, b: nat)
    requires a <= b
    ensures Power10(a) <= Power10(b)
    decreases b
  {
    if a < b { PowerMono(a, b - 1); }
  }

  lemma NumberOk(n: nat)
    requires n < 0x1_0000_0000_0000_0000
    ensures Clean(Decimal(n)) && !Blank(Decimal(n)[|Decimal(n)| - 1]) && |Decimal(n)| <= 20
  {
    DecimalDigits(n);
    assert Power10(2) == 100 && Power10(4) == 10_000 && Power10(6) == 1_000_000 && Power10(8) == 100_000_000;
    assert Power10(10) == 10_000_000_000 && Power10(12) == 1_000_000_000_000 && Power10(14) == 100_000_000_000_000;
    assert Power10(16) == 10_000_000_000_000_000 && Power10(18) == 1_000_000_000_000_000_000;
    assert Power10(20) == 100_000_000_000_000_000_000;
    DecimalFits(n, 20);
  }

  /** A number that was printed with %u is read back. */
  lemma NumberRoundTrip(fields: seq<Field>, rest: string, i: nat, n: nat)
    requires i < |fields| && AllOk(fields) && Distinct(fields)
    requires n < 0x1_0000_0000_0000_0000 && fields[i].value == Decimal(n)
    ensures ParseNumber(Lines(fields) + rest, fields[i].tag) == n
  {
    hide Lines, ParseTag, DecimalValue, Decimal, Value, Clean, FieldOk, AllOk, Distinct;
    NumberOk(n);
    ParsePrinted(fields, rest, i, 32);
    ReadDecimal(n);
  }

  lemma ReadDecimal(n: nat)
    ensures DecimalValue(Decimal(n)) == n
    ensures |Decimal(n)| >= 2 ==> IsDigit(Decimal(n)[1])
  {
    hide Digits;
    DecimalDigits(n);
    DecimalValueIs(Decimal(n));
    ValueDigits(n, 10);
  }

  lemma BoolRoundTrip(fields: seq<Field>, rest: string, i: nat, b: bool)
    requires i < |fields| && AllOk(fields) && Distinct(fields)
    requires fields[i].value == (if b then "True" else "False")
    ensures ParseBool(Lines(fields) + rest, fields[i].tag) == b
  {
    ParsePrinted(fields, rest, i, 16);
  }

  function Flag(b: bool): string { if b then "True" else "False" }

  function Number(tag: string, n: nat): Field { Field(tag, false, Decimal(n)) }
  function Quoted(tag: string, s: string): Field { Field(tag, true, s) }
  function Bare(tag: string, s: string): Field { Field(tag, false, s) }

  // ---- storage.desc ----

  datatype StorageDesc = StorageDesc(
    magic: nat, driveNumber: nat, driveName: string, password: string, passwordProtected: bool,
    totalSize: nat, usedSize: nat, freeSize: nat,
    totalBlocks: nat, usedBlocks: nat, freeBlocks: nat, rootBlock: nat,
    volumeLabel: string, created: string, lastMounted: string)

  function StorageFields(d: StorageDesc): seq<Field> {
    [Number("MAGIC", d.magic), Number("DRIVE_NUMBER", d.driveNumber),
     Quoted("DRIVE_NAME", d.driveName), Quoted("PASSWORD", d.password), Bare("PASSWORDPROTECTED", Flag(d.passwordProtected)),
     Number("TOTAL_SIZE_HI", d.totalSize / 0x1_0000_0000), Number("TOTAL_SIZE_LO", d.totalSize % 0x1_0000_0000),
     Number("USED_SIZE_HI", d.usedSize / 0x1_0000_0000), Number("USED_SIZE_LO", d.usedSize % 0x1_0000_0000),
     Number("FREE_SIZE_HI", d.freeSize / 0x1_0000_0000), Number("FREE_SIZE_LO", d.freeSize % 0x1_0000_0000),
     Number("TOTAL_BLOCKS", d.totalBlocks), Number("USED_BLOCKS", d.usedBlocks), Number("FREE_BLOCKS", d.freeBlocks),
     Number("ROOT_BLOCK", d.rootBlock), Quoted("FILESYSTEM_LABEL", d.volumeLabel),
     Quoted("CREATEDDATE", d.created), Quoted("LASTMOUNTED", d.lastMounted)]
  }

  lemma StorageDistinct(d: StorageDesc)
    ensures Distinct(StorageFields(d))
  {
    hide Decimal, Flag;
  }

  const LONG := 0x1_0000_0000_0000_0000

  /** The ranges of the record's C types, and strings without delimiters. */
  ghost predicate StorageOk(d: StorageDesc) {
    && d.magic < WORD && d.driveNumber < 256
    && d.totalSize < LONG && d.usedSize < LONG && d.freeSize < LONG
    && d.totalBlocks < WORD && d.usedBlocks < WORD && d.freeBlocks < WORD && d.rootBlock < WORD
    && Clean(d.driveName) && |d.driveName| < 64 && Clean(d.password) && |d.password| < 64
    && Clean(d.volumeLabel) && |d.volumeLabel| < 64
    && Clean(d.created) && |d.created| < 32 && Clean(d.lastMounted) && |d.lastMounted| < 32
  }

  function PrintStorage(d: StorageDesc): string {
    Lines(StorageFields(d)) + "@END@\n"
  }

  /** The bits of two numbers together. */
  function Bits(a: nat, b: nat): nat {
    if a == 0 then b else if b == 0 then a
    else 2 * Bits(a / 2, b / 2) + (if a % 2 == 1 || b % 2 == 1 then 1 else 0)
  }

  /** ((uint64_t)hi << 32) | lo. */
  function Join(hi: nat, lo: nat): nat
    requires hi < LONG && lo < LONG
  {
    Bits(hi % WORD, lo / WORD) * WORD + lo % WORD
  }

  ghost function Shifted(n: nat, k: nat): nat { if k == 0 then n else Shifted(n / 2, k - 1) }

  ghost predicate HasBit(n: nat, k: nat) { Shifted(n, k) % 2 == 1 }

  lemma {:induction false} NoBits(k: nat)
    ensures !HasBit(0, k)
  {
    if k > 0 { NoBits(k - 1); }
  }

  /** A bit is set exactly if it is in one of them. */
  lemma {:induction false} BitsIs(a: nat, b: nat, k: nat)
    ensures HasBit(Bits(a, b), k) <==> HasBit(a, k) || HasBit(b, k)
    decreases k
  {
    NoBits(k);
    if a > 0 && b > 0 && k > 0 {
      BitsIs(a / 2, b / 2, k - 1);
    }
  }

  /** The lower half is that of lo; the upper half has the bits of both. */
  lemma JoinHalves(hi: nat, lo: nat, k: nat)
    requires hi < LONG && lo < LONG
    ensures Join(hi, lo) % WORD == lo % WORD
    ensures HasBit(Join(hi, lo) / WORD, k) <==> HasBit(hi % WORD, k) || HasBit(lo / WORD, k)
  {
    hide HasBit, Bits;
    BitsIs(hi % WORD, lo / WORD, k);
    Halves(Bits(hi % WORD, lo / WORD), lo % WORD);
  }

  lemma Halves(u: nat, v: nat)
    requires v < WORD
    ensures (u * WORD + v) % WORD == v && (u * WORD + v) / WORD == u
  {
  }

  /** A string that is not found leaves the zeroed field. */
  function TagString(s: string, tag: string, max: nat): string
    requires max > 0
  {
    match ParseTag(s, tag, max) case None => "" case Some(v) => v
  }

  /** minimafs_read_storage_desc, after the block was read. */
  function ParseStorage(s: string): Option<StorageDesc> {
    var d := StorageDesc(
      ParseNumber(s, "MAGIC") % WORD, ParseNumber(s, "DRIVE_NUMBER") % 256,
      TagString(s, "DRIVE_NAME", 64), TagString(s, "PASSWORD", 64), ParseBool(s, "PASSWORDPROTECTED"),
      Join(ParseNumber(s, "TOTAL_SIZE_HI"), ParseNumber(s, "TOTAL_SIZE_LO")),
      Join(ParseNumber(s, "USED_SIZE_HI"), ParseNumber(s, "USED_SIZE_LO")),
      Join(ParseNumber(s, "FREE_SIZE_HI"), ParseNumber(s, "FREE_SIZE_LO")),
      ParseNumber(s, "TOTAL_BLOCKS") % WORD, ParseNumber(s, "USED_BLOCKS") % WORD,
      ParseNumber(s, "FREE_BLOCKS") % WORD, ParseNumber(s, "ROOT_BLOCK") % WORD,
      TagString(s, "FILESYSTEM_LABEL", 64), TagString(s, "CREATEDDATE", 32), TagString(s, "LASTMOUNTED", 32));
    if d.magic != MAGIC || d.totalBlocks == 0 || d.totalSize == 0 || d.rootBlock == 0 then None else Some(d)
  }

  lemma NumberFieldOk(tag: string, n: nat)
    requires TagName(tag) && n < LONG
    ensures FieldOk(Number(tag, n))
  {
    NumberOk(n);
  }

  lemma StorageTagNames()
    ensures TagName("MAGIC") && TagName("DRIVE_NUMBER") && TagName("DRIVE_NAME") && TagName("PASSWORD")
    ensures TagName("PASSWORDPROTECTED") && TagName("TOTAL_SIZE_HI") && TagName("TOTAL_SIZE_LO")
    ensures TagName("USED_SIZE_HI") && TagName("USED_SIZE_LO") && TagName("FREE_SIZE_HI") && TagName("FREE_SIZE_LO")
  {
  }

  lemma MoreTagNames()
    ensures TagName("TOTAL_BLOCKS") && TagName("USED_BLOCKS") && TagName("FREE_BLOCKS") && TagName("ROOT_BLOCK")
    ensures TagName("FILESYSTEM_LABEL") && TagName("CREATEDDATE") && TagName("LASTMOUNTED")
  {
  }

  lemma StorageFieldsOk(d: StorageDesc)
    requires StorageOk(d)
    ensures AllOk(StorageFields(d))
  {
    StorageTagNames();
    MoreTagNames();
    hide TagName, Decimal;
    NumberFieldOk("MAGIC", d.magic);
    NumberFieldOk("DRIVE_NUMBER", d.driveNumber);
    NumberFieldOk("TOTAL_SIZE_HI", d.totalSize / WORD);
    NumberFieldOk("TOTAL_SIZE_LO", d.totalSize % WORD);
    NumberFieldOk("USED_SIZE_HI", d.usedSize / WORD);
    NumberFieldOk("USED_SIZE_LO", d.usedSize % WORD);
    NumberFieldOk("FREE_SIZE_HI", d.freeSize / WORD);
    NumberFieldOk("FREE_SIZE_LO", d.freeSize % WORD);
    NumberFieldOk("TOTAL_BLOCKS", d.totalBlocks);
    NumberFieldOk("USED_BLOCKS", d.usedBlocks);
    NumberFieldOk("FREE_BLOCKS", d.freeBlocks);
    NumberFieldOk("ROOT_BLOCK", d.rootBlock);
  }

  lemma StringRoundTrip(fields: seq<Field>, rest: string, i: nat, max: nat)
    requires i < |fields| && AllOk(fields) && Distinct(fields) && |fields[i].value| < max
    ensures TagString(Lines(fields) + rest, fields[i].tag, max) == fields[i].value
  {
    hide Lines, ParseTag, AllOk, Distinct;
    ParsePrinted(fields, rest, i, max);
  }

  lemma JoinSplit(n: nat)
    requires n < LONG
    ensures Join(n / WORD, n % WORD) == n
  {
  }

  lemma StorageFieldList(d: StorageDesc)
    ensures var f := StorageFields(d);
            && |f| == 18
            && f[0] == Number("MAGIC", d.magic) && f[1] == Number("DRIVE_NUMBER", d.driveNumber)
            && f[2] == Quoted("DRIVE_NAME", d.driveName) && f[3] == Quoted("PASSWORD", d.password)
            && f[4] == Bare("PASSWORDPROTECTED", Flag(d.passwordProtected))
  {
    hide Decimal, Number, Quoted, Bare, Flag;
  }

  lemma StorageFieldSizes(d: StorageDesc)
    ensures var f := StorageFields(d);
            && |f| == 18
            && f[5] == Number("TOTAL_SIZE_HI", d.totalSize / WORD) && f[6] == Number("TOTAL_SIZE_LO", d.totalSize % WORD)
            && f[7] == Number("USED_SIZE_HI", d.usedSize / WORD) && f[8] == Number("USED_SIZE_LO", d.usedSize % WORD)
  {
    hide Decimal, Number, Quoted, Bare, Flag;
  }

  lemma StorageFieldTail(d: StorageDesc)
    ensures var f := StorageFields(d);
            && |f| == 18
            && f[9] == Number("FREE_SIZE_HI", d.freeSize / WORD) && f[10] == Number("FREE_SIZE_LO", d.freeSize % WORD)
            && f[11] == Number("TOTAL_BLOCKS", d.totalBlocks) && f[12] == Number("USED_BLOCKS", d.usedBlocks)
            && f[13] == Number("FREE_BLOCKS", d.freeBlocks) && f[14] == Number("ROOT_BLOCK", d.rootBlock)
            && f[15] == Quoted("FILESYSTEM_LABEL", d.volumeLabel)
            && f[16] == Quoted("CREATEDDATE", d.created) && f[17] == Quoted("LASTMOUNTED", d.lastMounted)
  {
    hide Decimal, Number, Quoted, Bare, Flag;
  }

  lemma StorageNumbers(d: StorageDesc, tail: string)
    requires StorageOk(d)
    ensures var s := Lines(StorageFields(d)) + tail;
            && ParseNumber(s, "MAGIC") == d.magic && ParseNumber(s, "DRIVE_NUMBER") == d.driveNumber
            && ParseNumber(s, "TOTAL_BLOCKS") == d.totalBlocks && ParseNumber(s, "USED_BLOCKS") == d.usedBlocks
            && ParseNumber(s, "FREE_BLOCKS") == d.freeBlocks && ParseNumber(s, "ROOT_BLOCK") == d.rootBlock
  {
    StorageDistinct(d);
    StorageFieldsOk(d);
    StorageFieldList(d);
    StorageFieldTail(d);
    hide StorageFields, Lines, AllOk, Distinct, Decimal, ParseNumber, Clean;
    var f := StorageFields(d);
    NumberRoundTrip(f, tail, 0, d.magic);
    NumberRoundTrip(f, tail, 1, d.driveNumber);
    NumberRoundTrip(f, tail, 11, d.totalBlocks);
    NumberRoundTrip(f, tail, 12, d.usedBlocks);
    NumberRoundTrip(f, tail, 13, d.freeBlocks);
    NumberRoundTrip(f, tail, 14, d.rootBlock);
  }

  lemma StorageSizes(d: StorageDesc, tail: string)
    requires StorageOk(d)
    ensures var s := Lines(StorageFields(d)) + tail;
            && Join(ParseNumber(s, "TOTAL_SIZE_HI"), ParseNumber(s, "TOTAL_SIZE_LO")) == d.totalSize
            && Join(ParseNumber(s, "USED_SIZE_HI"), ParseNumber(s, "USED_SIZE_LO")) == d.usedSize
            && Join(ParseNumber(s, "FREE_SIZE_HI"), ParseNumber(s, "FREE_SIZE_LO")) == d.freeSize
  {
    StorageDistinct(d);
    StorageFieldsOk(d);
    StorageFieldSizes(d);
    StorageFieldTail(d);
    hide StorageFields, Lines, AllOk, Distinct, Decimal, ParseNumber, Join, Clean;
    var f := StorageFields(d);
    NumberRoundTrip(f, tail, 5, d.totalSize / WORD);
    NumberRoundTrip(f, tail, 6, d.totalSize % WORD);
    NumberRoundTrip(f, tail, 7, d.usedSize / WORD);
    NumberRoundTrip(f, tail, 8, d.usedSize % WORD);
    NumberRoundTrip(f, tail, 9, d.freeSize / WORD);
    NumberRoundTrip(f, tail, 10, d.freeSize % WORD);
    JoinSplit(d.totalSize);
    JoinSplit(d.usedSize);
    JoinSplit(d.freeSize);
  }

  lemma StorageStrings(d: StorageDesc, tail: string)
    requires StorageOk(d)
    ensures var s := Lines(StorageFields(d)) + tail;
            && TagString(s, "DRIVE_NAME", 64) == d.driveName && TagString(s, "PASSWORD", 64) == d.password
            && ParseBool(s, "PASSWORDPROTECTED") == d.passwordProtected
            && TagString(s, "FILESYSTEM_LABEL", 64) == d.volumeLabel
            && TagString(s, "CREATEDDATE", 32) == d.created && TagString(s, "LASTMOUNTED", 32) == d.lastMounted
  {
    StorageDistinct(d);
    StorageFieldsOk(d);
    StorageFieldList(d);
    StorageFieldTail(d);
    hide StorageFields, Lines, AllOk, Distinct, Decimal, ParseBool, TagString, Clean;
    var f := StorageFields(d);
    StringRoundTrip(f, tail, 2, 64);
    StringRoundTrip(f, tail, 3, 64);
    BoolRoundTrip(f, tail, 4, d.passwordProtected);
    StringRoundTrip(f, tail, 15, 64);
    StringRoundTrip(f, tail, 16, 32);
    StringRoundTrip(f, tail, 17, 32);
  }

  /** storage.desc round trip; a record that mount would refuse is refused. */
  lemma StorageRoundTrip(d: StorageDesc, rest: string)
    requires StorageOk(d)
    ensures ParseStorage(PrintStorage(d) + rest) ==
            if d.magic == MAGIC && d.totalBlocks != 0 && d.totalSize != 0 && d.rootBlock != 0 then Some(d) else None
  {
    hide Lines, StorageFields, ParseNumber, ParseBool, TagString, Join, Clean;
    var tail := "@END@\n" + rest;
    StorageNumbers(d, tail);
    StorageSizes(d, tail);
    StorageStrings(d, tail);
    Assoc(Lines(StorageFields(d)), "@END@\n", rest);
  }
}
