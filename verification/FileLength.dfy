/** FILELEN is the length of a file whose header contains FILELEN. Two passes are made for the number of its
    digits to settle; this module says for which headers they are enough. */
module FileLength {
  import opened Text
  import opened Words
  import opened Tags
  import opened Descriptors
  import opened FileHeader
  import opened Layout

  ghost function Width(n: nat): nat { |Decimal(n)| }

  /** base is the length of the header without the digits of FILELEN. */
  ghost function SecondLength(base: nat, data: nat): nat { base + Width(data + FOOTER_SIZE) + data + FOOTER_SIZE }

  ghost function Recorded(base: nat, data: nat): nat { base + Width(SecondLength(base, data)) + data + FOOTER_SIZE }

  ghost function LaidOut(base: nat, data: nat): nat { base + Width(Recorded(base, data)) + data + FOOTER_SIZE }

  ghost predicate Settles(base: nat, data: nat) { Recorded(base, data) == LaidOut(base, data) }

  lemma WidthIs(n: nat, k: nat)
    requires k > 0 && n < Power10(k) && (k == 1 || Power10(k - 1) <= n)
    ensures Width(n) == k
  {
    DecimalLength(n);
    DecimalFits(n, k);
    if Width(n) < k { PowerMono(Width(n), k - 1); }
  }

  lemma Powers()
    ensures Power10(0) == 1 && Power10(1) == 10 && Power10(2) == 100 && Power10(3) == 1000 && Power10(4) == 10_000
    ensures Power10(5) == 100_000
  {
  }

  lemma {:induction false} PowerGrows(k: nat)
    requires k >= 5
    ensures Power10(k) >= 100_000 && k <= Power10(k)
  {
    Powers();
    if k > 5 { PowerGrows(k - 1); }
  }

  ghost predicate Unlucky(base: nat) { 89 <= base <= 93 || 898 <= base <= 993 }

  lemma SettlesSmall(base: nat, data: nat)
    requires data + FOOTER_SIZE < 100 && base <= 8996 && !Unlucky(base)
    ensures Settles(base, data)
  {
    Powers();
    var x := data + FOOTER_SIZE;
    var k := if x < 10 then 1 else 2;
    WidthIs(x, k);
    var second := base + k + x;
    var w := if second < 10 then 1 else if second < 100 then 2 else if second < 1000 then 3 else 4;
    WidthIs(second, w);
    WidthIs(base + w + x, w);
  }

  lemma SettlesLarge(base: nat, data: nat)
    requires data + FOOTER_SIZE >= 100 && base <= 8996
    ensures Settles(base, data)
  {
    Powers();
    var x := data + FOOTER_SIZE;
    var k := Width(x);
    DecimalLength(x);
    if k < 3 { PowerMono(k, 2); }
    if k >= 5 { PowerGrows(k); }
    var second := base + k + x;
    var w := if second < Power10(k) then k else k + 1;
    assert Power10(k + 1) == 10 * Power10(k);
    assert k == 3 ==> Power10(k) == 1000;
    assert k == 4 ==> Power10(k) == 10_000;
    WidthIs(second, w);
    WidthIs(base + w + x, w);
  }

  /** The data length for which an unlucky header does not settle. */
  ghost function Witness(base: nat): nat
    requires Unlucky(base)
  {
    if base <= 93 then 93 - base else if base <= 992 then 992 - base else 0
  }

  /** The recorded length is then short of what is laid out. */
  lemma DoesNotSettle(base: nat)
    requires Unlucky(base)
    ensures Recorded(base, Witness(base)) < LaidOut(base, Witness(base))
  {
    Powers();
    var data := Witness(base);
    var x := data + FOOTER_SIZE;
    var k := if x < 10 then 1 else 2;
    WidthIs(x, k);
    var second := base + k + x;
    var w := if base <= 93 then 2 else 3;
    WidthIs(second, w);
    WidthIs(base + w + x, w + 1);
  }

  /** Headers up to 8996 bytes: the two passes are enough for every data length exactly when the header without
      the digits of FILELEN is not 89 to 93 or 898 to 993 bytes long. */
  lemma SettlesExactly(base: nat)
    requires base <= 8996
    ensures (forall data: nat :: Settles(base, data)) <==> !Unlucky(base)
  {
    if Unlucky(base) {
      DoesNotSettle(base);
      assert !Settles(base, Witness(base));
    } else {
      forall data: nat ensures Settles(base, data) {
        if data + FOOTER_SIZE < 100 { SettlesSmall(base, data); } else { SettlesLarge(base, data); }
      }
    }
  }

  lemma WidthMono(a: nat, b: nat)
    requires a <= b
    ensures Width(a) <= Width(b)
  {
    DecimalLength(b);
    DecimalFits(a, Width(b));
  }

  /** Each pass can only lengthen the header, so what is recorded never exceeds what is laid out. */
  lemma RecordedFits(base: nat, data: nat)
    ensures Recorded(base, data) <= LaidOut(base, data)
  {
    hide Decimal;
    var x := data + FOOTER_SIZE;
    WidthMono(x, SecondLength(base, data));
    WidthMono(SecondLength(base, data), Recorded(base, data));
  }

  lemma {:induction false} WidthBelow(n: nat)
    ensures Width(n) <= n + 1
  {
    if n >= 10 { WidthBelow(n / 10); }
  }

  /** What is recorded falls short of what is laid out by one byte at most. */
  lemma GapAtMostOne(base: nat, data: nat)
    ensures LaidOut(base, data) <= Recorded(base, data) + 1
  {
    hide Decimal;
    var second, recorded := SecondLength(base, data), Recorded(base, data);
    var w := Width(second);
    WidthBelow(second);
    DecimalLength(second);
    assert recorded <= 2 * second + 1 && recorded < Power10(w + 1) by { assert Power10(w + 1) == 10 * Power10(w); }
    DecimalFits(recorded, w + 1);
  }

  // ---- sums that wrap at 2^32 ----

  /** What the two passes record, with 32-bit sums. */
  ghost function WrappedLength(base: nat, data: nat): nat {
    var second := (base + Width((data + FOOTER_SIZE) % WORD) + data + FOOTER_SIZE) % WORD;
    (base + Width(second) + data + FOOTER_SIZE) % WORD
  }

  lemma NoWrap(base: nat, data: nat)
    requires LaidOut(base, data) < WORD
    ensures WrappedLength(base, data) == Recorded(base, data)
  {
    hide Decimal;
    WidthMono(data + FOOTER_SIZE, SecondLength(base, data));
    RecordedFits(base, data);
  }

  /** A number of ten digits, as every length close to 2^32 is one. */
  lemma WideNumber(n: nat)
    requires 1_000_000_000 <= n < 10_000_000_000
    ensures Width(n) == 10
  {
    Powers();
    assert Power10(7) == 10_000_000 && Power10(9) == 1_000_000_000;
    assert Power10(10) == 10_000_000_000;
    WidthIs(n, 10);
  }

  lemma NarrowNumber(n: nat)
    ensures Width(n) >= 1 && (n < 10 ==> Width(n) == 1)
  {
    Powers();
    if n < 10 { WidthIs(n, 1); }
    DecimalLength(n);
  }

  /** If the file does not fit into 32 bits, then neither does it with the header that the wrapped lengths lead to. */
  lemma WrapsToo(base: nat, data: nat)
    requires base <= 8996 && data < WORD && LaidOut(base, data) >= WORD
    ensures base + Width(WrappedLength(base, data)) + data + FOOTER_SIZE >= WORD
  {
    hide Decimal;
    var x := data + FOOTER_SIZE;
    NarrowNumber(WrappedLength(base, data));
    if base + 1 + x < WORD {
      TenDigits(base, data);
      NarrowNumber(base + 10 + x - WORD);
      WideNumber(base + 1 + x);
    }
  }

  /** A file that nearly fills 32 bits has a length of ten digits from the first pass on. */
  lemma TenDigits(base: nat, data: nat)
    requires base <= 8996 && data + FOOTER_SIZE < WORD && LaidOut(base, data) >= WORD
    ensures Width(data + FOOTER_SIZE) == 10 && base + 10 + data + FOOTER_SIZE >= WORD
    ensures base + 1 + data + FOOTER_SIZE >= 1_000_000_000
  {
    hide Decimal;
    if data + FOOTER_SIZE < 1_000_000_000 { ShortFile(base, data); }
    WideNumber(data + FOOTER_SIZE);
    WideNumber(5_000_000_000);
    WidthMono(SecondLength(base, data), 5_000_000_000);
    WidthMono(Recorded(base, data), 5_000_000_000);
  }

  lemma ShortFile(base: nat, data: nat)
    requires base <= 8996 && data + FOOTER_SIZE < 1_000_000_000
    ensures LaidOut(base, data) < WORD
  {
    hide Decimal;
    WideNumber(1_500_000_000);
    WidthMono(data + FOOTER_SIZE, 1_500_000_000);
    WidthMono(SecondLength(base, data), 1_500_000_000);
    WidthMono(Recorded(base, data), 1_500_000_000);
  }

  // ---- the header of a record ----

  ghost function Base(m: FileMeta): nat { |PrintHeader(m.(fileLength := 0))| - 1 }

  lemma BaseIs(m: FileMeta, n: nat)
    ensures |PrintHeader(m.(fileLength := n))| == Base(m) + Width(n)
  {
    HeaderLength(m, n);
    HeaderLength(m, 0);
  }

  lemma HeaderLength(m: FileMeta, n: nat)
    ensures |PrintHeader(m.(fileLength := n))| == Width(n) + |PrintHeader(m.(fileLength := 0))| - 1
  {
    hide Decimal, HeaderFields, Lines;
    var a, b := HeaderFields(m.(fileLength := n)), HeaderFields(m.(fileLength := 0));
    SameButLength(m, n);
    LinesSplit(a, 2);
    LinesSplit(b, 2);
    assert Width(0) == 1 by { WidthIs(0, 1); }
  }

  lemma SameButLength(m: FileMeta, n: nat)
    ensures var a, b := HeaderFields(m.(fileLength := n)), HeaderFields(m.(fileLength := 0));
            && |a| > 2 && |b| > 2 && a[..2] == b[..2] && a[3..] == b[3..]
            && a[2] == Number("FILELEN", n) && b[2] == Number("FILELEN", 0)
  {
    SameRunFields(m.(fileLength := n), m.(fileLength := 0));
    hide HeaderFields, Number, Quoted, Bare, Flag, RunFields;
    AroundLength(m.(fileLength := n));
    AroundLength(m.(fileLength := 0));
  }

  lemma AroundLength(m: FileMeta)
    ensures var f := HeaderFields(m);
            && |f| > 2 && f[2] == Number("FILELEN", m.fileLength)
            && f[..2] == [Bare("FILETYPE", m.filetype), Bare("FILEFORMAT", m.fileformat)]
            && f[3..] == [Number("DATALEN", m.dataLength), Quoted("FILENAME", m.filename), Quoted("CREATEDDATE", m.created),
                          Quoted("LASTCHANGED", m.lastChanged), Quoted("PARENTFOLDER", m.parentFolder)]
                         + RunFields(m) + [Bare("HIDDEN", Flag(m.hidden))]
  {
    hide Number, Quoted, Bare, Flag, RunFields;
  }

  lemma SameRunFields(m: FileMeta, m': FileMeta)
    requires m.runnable == m'.runnable && m.entrypoint == m'.entrypoint && m.runWith == m'.runWith
    ensures RunFields(m) == RunFields(m')
  {
  }

  /** The record that two trial headers and the final one settle on. */
  ghost function SettledMeta(m: FileMeta, n: nat): FileMeta {
    m.(dataLength := n, fileLength := Recorded(Base(m.(dataLength := n)), n))
  }

  /** The same with 32-bit sums. */
  ghost function WrappedMeta(m: FileMeta, n: nat): FileMeta {
    m.(dataLength := n, fileLength := WrappedLength(Base(m.(dataLength := n)), n))
  }

  /** The length of the file with that record. */
  ghost function FileSize(m: FileMeta, n: nat): nat { LaidOut(Base(m.(dataLength := n)), n) }

  lemma SettledSize(m: FileMeta, n: nat)
    ensures |PrintHeader(SettledMeta(m, n))| + n + FOOTER_SIZE == FileSize(m, n)
  {
    hide PrintHeader, Decimal;
    BaseIs(m.(dataLength := n), Recorded(Base(m.(dataLength := n)), n));
  }

  /** Without a wrap the records are the same. */
  lemma SettledNoWrap(m: FileMeta, n: nat)
    requires FileSize(m, n) < WORD
    ensures WrappedMeta(m, n) == SettledMeta(m, n)
    ensures |PrintHeader(WrappedMeta(m, n))| + n + FOOTER_SIZE == FileSize(m, n)
  {
    hide PrintHeader, Decimal;
    NoWrap(Base(m.(dataLength := n)), n);
    SettledSize(m, n);
  }

  /** With a wrap the file is still too long for 32 bits. */
  lemma SettledWraps(m: FileMeta, n: nat)
    requires Base(m.(dataLength := n)) <= 8996 && n < WORD && FileSize(m, n) >= WORD
    ensures |PrintHeader(WrappedMeta(m, n))| + n + FOOTER_SIZE >= WORD
  {
    hide PrintHeader, Decimal, WrappedLength;
    WrapsToo(Base(m.(dataLength := n)), n);
    BaseIs(m.(dataLength := n), WrappedLength(Base(m.(dataLength := n)), n));
  }

  /** The loop that settles the header: two trial headers, then the final one. */
  method SettleHeader(m: FileMeta, dataSize: nat) returns (meta: FileMeta, header: string)
    ensures meta == WrappedMeta(m, dataSize) && header == PrintHeader(meta)
  {
    hide PrintHeader, Decimal;
    meta := m.(dataLength := dataSize, fileLength := 0);
    ghost var base := Base(meta);
    var headerSize := 0;
    for i := 0 to 2
      invariant meta == m.(dataLength := dataSize, fileLength := meta.fileLength)
      invariant headerSize ==
                if i == 0 then 0
                else if i == 1 then base + Width((dataSize + FOOTER_SIZE) % WORD)
                else base + Width((base + Width((dataSize + FOOTER_SIZE) % WORD) + dataSize + FOOTER_SIZE) % WORD)
    {
      var length := (headerSize + dataSize + FOOTER_SIZE) % WORD;
      BaseIs(meta, length);
      meta := meta.(fileLength := length);
      headerSize := |PrintHeader(meta)|;
    }
    meta := meta.(fileLength := (headerSize + dataSize + FOOTER_SIZE) % WORD);
    header := PrintHeader(meta);
  }
}
