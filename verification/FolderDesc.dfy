/** folder.desc: the text of a directory block, printed entry by entry and parsed by a line loop. */
module FolderDesc {
  import opened Text
  import opened Options
  import opened Words
  import opened Tags
  import opened Descriptors
  import opened FileHeader
  import opened Layout

  const MAX_ENTRIES := 64
  const MAX_NAME := 64
  const MAX_PATH := 1024

  datatype Entry = Entry(name: string, isDir: bool, start: nat, count: nat, hidden: bool)

  datatype Folder = Folder(path: string, entries: seq<Entry>)

  // ---- printing ----

  function EntryLine(e: Entry): string {
    "ENTRY:" + e.name + "," + EntryFields(e)
  }

  function EntryFields(e: Entry): string {
    (if e.isDir then "DIR" else "FILE") + EntryNumbers(e)
  }

  function EntryNumbers(e: Entry): string {
    ",BLOCK:" + Decimal(e.start) + ",COUNT:" + Decimal(e.count) + ",HIDDEN:" + (if e.hidden then "1" else "0") + "\n"
  }

  function EntryLines(entries: seq<Entry>): string {
    if entries == [] then [] else EntryLine(entries[0]) + EntryLines(entries[1..])
  }

  function FolderText(d: Folder): string {
    "FOLDER:" + d.path + "\n" + ("ENTRIES:" + Decimal(|d.entries|) + "\n" + (EntryLines(d.entries) + "@END\n"))
  }

  // ---- parsing ----

  /** parse_uint32: skips what is not a digit, then reads digits; 32-bit wrap-around is kept. */
  function SkipNonDigits(s: string): string {
    if s != [] && !IsDigit(s[0]) then SkipNonDigits(s[1..]) else s
  }

  function TakeDigits(s: string): string {
    if s != [] && IsDigit(s[0]) then [s[0]] + TakeDigits(s[1..]) else []
  }

  function ParseWord(s: string): nat {
    Value(TakeDigits(SkipNonDigits(s)), 10) % WORD
  }

  /** parse_folder_entry_line. Searches run to the end of the text, not of the line. */
  function ParseEntry(s: string): Option<Entry> {
    if "ENTRY:" <= s then ParseName(s[6..]) else None
  }

  function ParseName(p: string): Option<Entry> {
    var comma := IndexOf(p, ',');
    if comma == |p| then None else ParseKind(Truncate(p[..comma], MAX_NAME), p[comma + 1..])
  }

  function ParseKind(name: string, t: string): Option<Entry> {
    var block := Find(t, ",BLOCK:");
    if block == -1 then None else Some(ParseNumbers(name, Truncate(t[..block], 8) == "DIR", t[block..]))
  }

  function ParseNumbers(name: string, isDir: bool, n: string): Entry
    requires |n| >= 7
  {
    var count, hidden := Find(n, ",COUNT:"), Find(n, ",HIDDEN:");
    Entry(name, isDir, ParseWord(n[7..]),
          if count == -1 then 1 else ParseWord(n[count + 7..]),
          hidden != -1 && ParseWord(n[hidden + 8..]) != 0)
  }

  /** The body of the line loop. */
  function SeeFolderLine(d: Folder, s: string): Folder {
    if "FOLDER:" <= s then d.(path := Truncate(s[7..if IndexOf(s, '\n') < 7 then 7 else IndexOf(s, '\n')], MAX_PATH))
    else if "ENTRY:" <= s && |d.entries| < MAX_ENTRIES then
      match ParseEntry(s)
      case Some(e) => d.(entries := d.entries + [e])
      case None => d
    else d
  }

  ghost function ScanFolder(d: Folder, s: string): Folder
    decreases |s|
  {
    if s == [] then d else ScanFolder(SeeFolderLine(d, s), AfterLine(s))
  }

  ghost function ParseFolder(s: string): Folder { ScanFolder(Folder("", []), s) }

  /** The loop of minimafs_read_folder_desc_block. */
  method ReadFolder(buffer: string) returns (d: Folder)
    ensures d == ParseFolder(buffer) && |d.entries| <= MAX_ENTRIES
  {
    AtMostMax(Folder("", []), buffer);
    d := Folder("", []);
    var line := buffer;
    while line != []
      invariant ScanFolder(d, line) == ParseFolder(buffer)
      decreases |line|
    {
      d := SeeFolderLine(d, line);
      line := AfterLine(line);
    }
  }

  // ---- one entry ----

  ghost predicate NameOk(s: string) {
    |s| < MAX_NAME && forall i :: 0 <= i < |s| ==> s[i] != ',' && s[i] != '\n' && s[i] != NUL
  }

  ghost predicate EntryOk(e: Entry) {
    NameOk(e.name) && e.start < WORD && e.count < WORD
  }

  lemma {:induction false} TakeDigitsOf(a: string, rest: string)
    requires forall i :: 0 <= i < |a| ==> IsDigit(a[i])
    requires rest != [] && !IsDigit(rest[0])
    ensures TakeDigits(a + rest) == a
    decreases |a|
  {
    if a == [] {
      assert a + rest == rest;
    } else {
      assert (a + rest)[1..] == a[1..] + rest;
      TakeDigitsOf(a[1..], rest);
    }
  }

  lemma WordRoundTrip(n: nat, rest: string)
    requires n < WORD && rest != [] && !IsDigit(rest[0])
    ensures ParseWord(Decimal(n) + rest) == n
  {
    hide Digits, Value;
    DecimalDigits(n);
    TakeDigitsOf(Decimal(n), rest);
    ValueDigits(n, 10);
    assert IsDigit((Decimal(n) + rest)[0]);
  }

  /** Every comma in front of a pattern that starts with one is followed by another letter than the pattern's. */
  lemma FindComma(a: string, p: string, rest: string)
    requires |p| > 1 && p[0] == ','
    requires forall i :: 0 <= i < |a| && a[i] == ',' ==> i + 1 < |a| && a[i + 1] != p[1]
    ensures Find(a + (p + rest), p) == |a| && (a + (p + rest))[|a|..] == p + rest
  {
    var s := a + (p + rest);
    assert s[|a|..|a| + |p|] == p;
    forall k | 0 <= k < |a| ensures !PrefixAt(s, k, p) {
      PrefixChar(s, k, p, 0);
      PrefixChar(s, k, p, 1);
      assert s[k] == a[k];
      assert k + 1 < |a| ==> s[k + 1] == a[k + 1];
    }
    FindIs(s, p, |a|);
  }

  ghost predicate NoComma(s: string) { forall i :: 0 <= i < |s| ==> s[i] != ',' }

  lemma DecimalNoComma(n: nat)
    ensures NoComma(Decimal(n))
  {
    DecimalDigits(n);
  }

  lemma CountField(b: string, c: string, rest: string)
    requires NoComma(b)
    ensures var s := ",BLOCK:" + b + (",COUNT:" + (c + rest));
            Find(s, ",COUNT:") == 7 + |b| && s[7 + |b| + 7..] == c + rest
  {
    var a := ",BLOCK:" + b;
    assert forall i :: 0 < i < 7 ==> a[i] != ',';
    assert forall i :: 7 <= i < |a| ==> a[i] == b[i - 7];
    FindComma(a, ",COUNT:", c + rest);
    hide Find;
    var s := a + (",COUNT:" + (c + rest));
    assert s[|a| + 7..] == s[|a|..][7..];
  }

  lemma HiddenField(b: string, c: string, rest: string)
    requires NoComma(b) && NoComma(c)
    ensures var s := ",BLOCK:" + b + (",COUNT:" + (c + (",HIDDEN:" + rest)));
            Find(s, ",HIDDEN:") == 14 + |b| + |c| && s[14 + |b| + |c| + 8..] == rest
  {
    hide Find;
    var a := ",BLOCK:" + b + ",COUNT:" + c;
    CommasBefore(b, c);
    FindComma(a, ",HIDDEN:", rest);
    var s := ",BLOCK:" + b + (",COUNT:" + (c + (",HIDDEN:" + rest)));
    assert s == a + (",HIDDEN:" + rest);
    assert s[|a| + 8..] == s[|a|..][8..];
  }

  lemma CommasBefore(b: string, c: string)
    requires NoComma(b) && NoComma(c)
    ensures var a := ",BLOCK:" + b + ",COUNT:" + c;
            forall i :: 0 <= i < |a| && a[i] == ',' ==> i + 1 < |a| && a[i + 1] != 'H'
  {
    var a := ",BLOCK:" + b + ",COUNT:" + c;
    assert forall i :: 0 < i < 7 ==> a[i] != ',';
    assert forall i :: 7 <= i < 7 + |b| ==> a[i] == b[i - 7];
    assert forall i :: 7 + |b| < i < 14 + |b| ==> a[i] != ',';
    assert forall i :: 14 + |b| <= i < |a| ==> a[i] == c[i - 14 - |b|];
    assert a[7 + |b| + 1] == 'C';
  }

  lemma NumbersRoundTrip(e: Entry, rest: string)
    requires EntryOk(e)
    ensures |EntryNumbers(e) + rest| >= 7
    ensures ParseNumbers(e.name, e.isDir, EntryNumbers(e) + rest) == e
  {
    hide Decimal, Find, ParseWord, NoComma, EntryNumbers;
    var b, c := Decimal(e.start), Decimal(e.count);
    var h := if e.hidden then "1" else "0";
    DecimalNoComma(e.start);
    DecimalNoComma(e.count);
    NumbersText(e, rest);
    var last := h + ("\n" + rest);
    var third := ",HIDDEN:" + last;
    var second := ",COUNT:" + (c + third);
    FlagDigit(e.hidden, "\n" + rest);
    WordRoundTrip(e.count, third);
    WordRoundTrip(e.start, second);
    CountField(b, c, third);
    HiddenField(b, c, last);
    DropSeven(b, second);
  }

  lemma DropSeven(b: string, rest: string)
    ensures (",BLOCK:" + b + rest)[7..] == b + rest
  {
  }

  lemma NumbersText(e: Entry, rest: string)
    ensures EntryNumbers(e) + rest ==
            ",BLOCK:" + Decimal(e.start) + (",COUNT:" + (Decimal(e.count) + (",HIDDEN:" + ((if e.hidden then "1" else "0") + ("\n" + rest)))))
  {
    hide Decimal;
  }

  lemma FlagDigit(b: bool, rest: string)
    requires rest != [] && !IsDigit(rest[0])
    ensures ParseWord((if b then "1" else "0") + rest) == if b then 1 else 0
  {
    var d := if b then "1" else "0";
    TakeDigitsOf(d, rest);
    assert Value(d, 10) == if b then 1 else 0;
  }

  lemma EntryText(e: Entry, rest: string)
    ensures EntryLine(e) + rest ==
            "ENTRY:" + (e.name + ("," + ((if e.isDir then "DIR" else "FILE") + (EntryNumbers(e) + rest))))
  {
    hide EntryNumbers;
  }

  lemma NameRoundTrip(name: string, t: string)
    requires NameOk(name)
    ensures ParseName(name + ("," + t)) == ParseKind(name, t)
  {
    hide IndexOf, ParseKind;
    var p := name + ("," + t);
    IndexOfIs(p, ',', |name|);
    assert p[..|name|] == name && p[|name| + 1..] == t;
  }

  lemma EntryRoundTrip(e: Entry, rest: string)
    requires EntryOk(e)
    ensures ParseEntry(EntryLine(e) + rest) == Some(e)
  {
    var kind := if e.isDir then "DIR" else "FILE";
    assert NoComma(kind) && |kind| < 8 && (kind == "DIR" <==> e.isDir);
    hide EntryLine, EntryNumbers, ParseName, ParseNumbers, Decimal, Find;
    var t := kind + (EntryNumbers(e) + rest);
    var p := e.name + ("," + t);
    EntryText(e, rest);
    assert ("ENTRY:" + p)[6..] == p;
    NameRoundTrip(e.name, t);
    NumbersFirst(e, kind, rest);
    NumbersRoundTrip(e, rest);
  }

  lemma NumbersFirst(e: Entry, kind: string, rest: string)
    requires NoComma(kind)
    ensures var t := kind + (EntryNumbers(e) + rest);
            Find(t, ",BLOCK:") == |kind| && t[|kind|..] == EntryNumbers(e) + rest && t[..|kind|] == kind
  {
    hide Decimal;
    var more := Decimal(e.start) + ",COUNT:" + Decimal(e.count) + ",HIDDEN:" + (if e.hidden then "1" else "0") + "\n" + rest;
    assert EntryNumbers(e) + rest == ",BLOCK:" + more;
    FindComma(kind, ",BLOCK:", more);
  }

  lemma NoFieldIn(b: string, p: string)
    requires NoComma(b) && |p| > 1 && p[0] == ',' && p[1] != 'B'
    ensures Find(",BLOCK:" + b, p) == -1
  {
    var s := ",BLOCK:" + b;
    assert forall i :: 7 <= i < |s| ==> s[i] == b[i - 7];
    var at := Find(s, p);
    if at != -1 {
      PrefixChar(s, at, p, 0);
      PrefixChar(s, at, p, 1);
    }
  }

  /** Without a count and a flag an entry has one block and is not hidden; every kind but DIR is a file. */
  lemma ShortEntry(name: string, kind: string, start: nat)
    requires NameOk(name) && NoComma(kind) && |kind| < 8 && start < WORD
    ensures ParseEntry("ENTRY:" + (name + ("," + (kind + (",BLOCK:" + (Decimal(start) + "\n")))))) ==
            Some(Entry(name, kind == "DIR", start, 1, false))
  {
    hide ParseName, Decimal, Find, ParseWord;
    var b := Decimal(start) + "\n";
    var n := ",BLOCK:" + b;
    var t := kind + n;
    var p := name + ("," + t);
    assert ("ENTRY:" + p)[6..] == p;
    NameRoundTrip(name, t);
    FindComma(kind, ",BLOCK:", b);
    assert t[..|kind|] == kind && n[7..] == b;
    DecimalNoComma(start);
    NoFieldIn(b, ",COUNT:");
    NoFieldIn(b, ",HIDDEN:");
    WordRoundTrip(start, "\n");
  }

  /** No text gives more than 64 entries. */
  lemma {:induction false} AtMostMax(d: Folder, s: string)
    requires |d.entries| <= 64
    ensures |ScanFolder(d, s).entries| <= 64
    decreases |s|
  {
    hide ParseEntry, AfterLine;
    if s != [] { AtMostMax(SeeFolderLine(d, s), AfterLine(s)); }
  }

  // ---- the whole folder ----

  ghost predicate OneLine(s: string) { forall i :: 0 <= i < |s| ==> s[i] != '\n' }

  lemma AfterOneLine(a: string, rest: string)
    requires OneLine(a)
    ensures IndexOf(a + ("\n" + rest), '\n') == |a| && AfterLine(a + ("\n" + rest)) == rest
  {
    hide IndexOf;
    var b := "\n" + rest;
    assert b[0] == '\n' && b[1..] == rest;
    var s := a + b;
    assert s[|a| + 1..] == b[1..];
    IndexOfIs(s, '\n', |a|);
  }

  lemma ScanStep(d: Folder, s: string)
    ensures s != [] ==> ScanFolder(d, s) == ScanFolder(SeeFolderLine(d, s), AfterLine(s))
    ensures ScanFolder(d, []) == d
  {
  }

  lemma DecimalOneLine(n: nat)
    ensures OneLine(Decimal(n))
  {
    DecimalDigits(n);
  }

  lemma EntryLineEnds(e: Entry, rest: string)
    requires EntryOk(e)
    ensures AfterLine(EntryLine(e) + rest) == rest
  {
    DecimalOneLine(e.start);
    DecimalOneLine(e.count);
    hide Decimal, AfterLine;
    var kind, h := if e.isDir then "DIR" else "FILE", if e.hidden then "1" else "0";
    var a := "ENTRY:" + e.name + "," + kind;
    var b := ",BLOCK:" + Decimal(e.start) + ",COUNT:" + Decimal(e.count) + ",HIDDEN:" + h;
    assert OneLine(a) && OneLine(b);
    assert EntryLine(e) + rest == (a + b) + ("\n" + rest);
    AfterOneLine(a + b, rest);
  }

  ghost predicate EntriesOk(entries: seq<Entry>) {
    |entries| <= MAX_ENTRIES && forall i :: 0 <= i < |entries| ==> EntryOk(entries[i])
  }

  ghost predicate FolderOk(d: Folder) {
    OneLine(d.path) && |d.path| < MAX_PATH && EntriesOk(d.entries) && forall i :: 0 <= i < |d.path| ==> d.path[i] != NUL
  }

  lemma {:induction false} ScanEntries(d: Folder, entries: seq<Entry>)
    requires |d.entries| + |entries| <= MAX_ENTRIES && EntriesOk(entries)
    ensures ScanFolder(d, EntryLines(entries) + "@END\n") == d.(entries := d.entries + entries)
    decreases |entries|
  {
    hide EntryLine, EntryLines, AfterLine, SeeFolderLine, ScanFolder, EntryOk;
    EntryLinesText(entries, "@END\n");
    if entries == [] {
      ScanEnd(d);
      assert d.entries + [] == d.entries;
    } else {
      var e, rest := entries[0], EntryLines(entries[1..]) + "@END\n";
      SeeEntry(d, e, rest);
      EntryLineEnds(e, rest);
      ScanStep(d, EntryLine(e) + rest);
      ScanEntries(d.(entries := d.entries + [e]), entries[1..]);
      assert d.entries + [e] + entries[1..] == d.entries + entries;
    }
  }

  lemma EntryLinesText(entries: seq<Entry>, rest: string)
    ensures entries == [] ==> EntryLines(entries) + rest == rest
    ensures entries != [] ==> EntryLines(entries) + rest == EntryLine(entries[0]) + (EntryLines(entries[1..]) + rest)
    ensures entries != [] ==> EntryLine(entries[0]) + (EntryLines(entries[1..]) + rest) != []
  {
    if entries != [] {
      Assoc(EntryLine(entries[0]), EntryLines(entries[1..]), rest);
      EntryText(entries[0], EntryLines(entries[1..]) + rest);
    }
    hide EntryLine;
  }

  lemma ScanEnd(d: Folder)
    ensures ScanFolder(d, "@END\n") == d
  {
    var s := "@END\n";
    assert s == "@END" + ("\n" + []);
    AfterOneLine("@END", []);
    hide AfterLine, ScanFolder;
    assert s[0] == '@' && SeeFolderLine(d, s) == d;
    ScanStep(d, s);
    ScanStep(d, []);
  }

  lemma SeeEntry(d: Folder, e: Entry, rest: string)
    requires EntryOk(e) && |d.entries| < MAX_ENTRIES
    ensures SeeFolderLine(d, EntryLine(e) + rest) == d.(entries := d.entries + [e])
  {
    EntryRoundTrip(e, rest);
    EntryText(e, rest);
    hide EntryLine, ParseEntry, EntryNumbers;
    var s := EntryLine(e) + rest;
    assert s[0] == 'E' && "ENTRY:" <= s;
  }

  lemma SeePath(path: string, rest: string)
    requires OneLine(path) && |path| < MAX_PATH
    ensures var s := "FOLDER:" + path + "\n" + rest;
            AfterLine(s) == rest && SeeFolderLine(Folder("", []), s) == Folder(path, [])
  {
    var a := "FOLDER:" + path;
    AfterOneLine(a, rest);
    hide IndexOf, AfterLine;
    var s := "FOLDER:" + path + "\n" + rest;
    assert s == a + ("\n" + rest);
    assert s[7..7 + |path|] == path;
  }

  lemma SeeCount(d: Folder, n: nat, rest: string)
    ensures var s := "ENTRIES:" + Decimal(n) + "\n" + rest;
            AfterLine(s) == rest && SeeFolderLine(d, s) == d
  {
    DecimalOneLine(n);
    hide Decimal, AfterLine, IndexOf;
    var a, s := "ENTRIES:" + Decimal(n), "ENTRIES:" + Decimal(n) + "\n" + rest;
    assert s == a + ("\n" + rest);
    AfterOneLine(a, rest);
    assert s[0] == 'E' && s[4] == 'I';
  }

  /** Parsing a printed folder.desc gives the directory back: same path, same entries in the same order. */
  lemma FolderRoundTrip(d: Folder)
    requires FolderOk(d)
    ensures ParseFolder(FolderText(d)) == d
  {
    hide AfterLine, SeeFolderLine, EntryLines, Decimal, ScanFolder, EntryOk, OneLine, IndexOf;
    var entries := EntryLines(d.entries) + "@END\n";
    var counted := "ENTRIES:" + Decimal(|d.entries|) + "\n" + entries;
    var whole := "FOLDER:" + d.path + "\n" + counted;
    assert |whole| > 0 && |counted| > 0;
    SeePath(d.path, counted);
    SeeCount(Folder(d.path, []), |d.entries|, entries);
    ScanStep(Folder("", []), whole);
    ScanStep(Folder(d.path, []), counted);
    ScanEntries(Folder(d.path, []), d.entries);
    assert [] + d.entries == d.entries;
  }

  // ---- writing ----

  function HeadText(path: string, n: nat): string {
    "FOLDER:" + path + "\n" + ("ENTRIES:" + Decimal(n) + "\n")
  }

  function FolderHead(d: Folder): string { HeadText(d.path, |d.entries|) }

  /** The limits that minimafs_write_folder_desc checks: the number of entries, and 128 bytes of room
      before each of them. */
  ghost predicate FolderFits(d: Folder) {
    |d.entries| <= MAX_ENTRIES &&
    forall i :: 0 <= i < |d.entries| ==> |FolderHead(d) + EntryLines(d.entries[..i])| <= BLOCK_SIZE - 128
  }

  lemma {:induction false} EntryLinesSnoc(entries: seq<Entry>, i: nat)
    requires i < |entries|
    ensures EntryLines(entries[..i + 1]) == EntryLines(entries[..i]) + EntryLine(entries[i])
    decreases i
  {
    hide EntryLine;
    if i == 0 {
      assert entries[..1][1..] == [] && entries[..0] == [];
    } else {
      EntryLinesSnoc(entries[1..], i - 1);
      assert entries[..i + 1][1..] == entries[1..][..i] && entries[..i][1..] == entries[1..][..i - 1];
    }
  }

  lemma EntryLineShort(e: Entry)
    requires EntryOk(e)
    ensures |EntryLine(e)| <= 120
  {
    DecimalFits(e.start, 10) by { WordBelow(e.start); }
    DecimalFits(e.count, 10) by { WordBelow(e.count); }
    hide Decimal;
  }

  lemma WordBelow(n: nat)
    requires n < WORD
    ensures n < Power10(10)
  {
    assert Power10(2) == 100 && Power10(4) == 10_000 && Power10(6) == 1_000_000 && Power10(8) == 100_000_000;
    assert Power10(10) == 10_000_000_000;
  }

  lemma WholeText(d: Folder)
    ensures FolderText(d) == FolderHead(d) + EntryLines(d.entries) + "@END\n"
  {
    hide Decimal, EntryLines;
  }

  /** minimafs_write_folder_desc, up to the write of the block. What passes the limits fits the block with
      room for the terminating zero. */
  method WriteFolder(d: Folder) returns (text: Option<string>)
    ensures text == if FolderFits(d) then Some(FolderText(d)) else None
    ensures text.Some? && FolderOk(d) ==> |text.value| < BLOCK_SIZE
  {
    hide EntryLine, Decimal, EntryOk;
    if |d.entries| > MAX_ENTRIES { return None; }
    var buffer := FolderHead(d);
    HeadLength(d);
    for i := 0 to |d.entries|
      invariant buffer == FolderHead(d) + EntryLines(d.entries[..i])
      invariant forall j :: 0 <= j < i ==> |FolderHead(d) + EntryLines(d.entries[..j])| <= BLOCK_SIZE - 128
      invariant FolderOk(d) ==> |buffer| <= BLOCK_SIZE - 8
    {
      if |buffer| > BLOCK_SIZE - 128 { return None; }
      EntryLinesSnoc(d.entries, i);
      if FolderOk(d) { EntryLineShort(d.entries[i]); }
      buffer := buffer + EntryLine(d.entries[i]);
    }
    assert d.entries[..|d.entries|] == d.entries;
    WholeText(d);
    text := Some(buffer + "@END\n");
  }

  lemma HeadLength(d: Folder)
    ensures FolderOk(d) ==> |FolderHead(d)| <= 2000
    ensures FolderHead(d) + EntryLines(d.entries[..0]) == FolderHead(d)
  {
    if FolderOk(d) {
      DecimalFits(|d.entries|, 10) by { WordBelow(|d.entries|); }
    }
    assert EntryLines(d.entries[..0]) == [];
    hide Decimal;
  }

  // ---- an entry less still fits ----

  lemma {:induction false} EntryLinesJoin(a: seq<Entry>, b: seq<Entry>)
    ensures EntryLines(a + b) == EntryLines(a) + EntryLines(b)
  {
    hide EntryLine;
    if a == [] {
      assert a + b == b;
      assert EntryLines(a) + EntryLines(b) == EntryLines(b);
    } else {
      EntryLinesJoin(a[1..], b);
      assert (a + b)[1..] == a[1..] + b;
      Assoc(EntryLine(a[0]), EntryLines(a[1..]), EntryLines(b));
    }
  }

  lemma HeadShorter(d: Folder, n: nat)
    requires n <= |d.entries|
    ensures |FolderHead(d.(entries := d.entries[..n]))| <= |FolderHead(d)|
  {
    DecimalLength(|d.entries|);
    DecimalFits(n, |Decimal(|d.entries|)|);
    hide Decimal;
  }

  lemma OneLess(entries: seq<Entry>, k: nat, i: nat)
    requires k < i < |entries|
    ensures |EntryLines((entries[..k] + entries[k + 1..])[..i])| <= |EntryLines(entries[..i + 1])|
  {
    hide EntryLine;
    var mid := entries[k + 1..i + 1];
    assert (entries[..k] + entries[k + 1..])[..i] == entries[..k] + mid;
    assert entries[..i + 1] == entries[..k] + ([entries[k]] + mid);
    EntryLinesJoin(entries[..k], mid);
    EntryLinesJoin(entries[..k], [entries[k]] + mid);
    EntryLinesJoin([entries[k]], mid);
  }

  /** Removing an entry cannot exceed the limits. */
  lemma ShorterFits(d: Folder, k: nat)
    requires FolderFits(d) && k < |d.entries|
    ensures FolderFits(d.(entries := d.entries[..k] + d.entries[k + 1..]))
  {
    hide EntryLine, EntryLines, FolderHead;
    var u := d.(entries := d.entries[..k] + d.entries[k + 1..]);
    HeadShorter(d, |d.entries| - 1);
    HeadCount(u, d.(entries := d.entries[..|d.entries| - 1]));
    forall i | 0 <= i < |u.entries| ensures |FolderHead(u) + EntryLines(u.entries[..i])| <= BLOCK_SIZE - 128 {
      if i <= k {
        assert u.entries[..i] == d.entries[..i];
        assert |FolderHead(d) + EntryLines(d.entries[..i])| <= BLOCK_SIZE - 128;
      } else {
        OneLess(d.entries, k, i);
        assert |FolderHead(d) + EntryLines(d.entries[..i + 1])| <= BLOCK_SIZE - 128;
      }
    }
  }

  lemma HeadCount(a: Folder, b: Folder)
    requires a.path == b.path && |a.entries| == |b.entries|
    ensures FolderHead(a) == FolderHead(b)
  {
  }

  // ---- room for one more entry ----

  /** The writer's limits for a folder with one more entry, whatever that is: the number of entries, and 128 bytes
      of room behind those that are there. */
  ghost predicate HasRoom(d: Folder) {
    |d.entries| < MAX_ENTRIES && |HeadText(d.path, |d.entries| + 1)| + |EntryLines(d.entries)| <= BLOCK_SIZE - 128
  }

  lemma PrefixShorter(entries: seq<Entry>, i: nat)
    requires i <= |entries|
    ensures |EntryLines(entries[..i])| <= |EntryLines(entries)|
  {
    hide EntryLines;
    EntryLinesJoin(entries[..i], entries[i..]);
    assert entries[..i] + entries[i..] == entries;
  }

  lemma FitsExtended(d: Folder, e: Entry)
    ensures FolderFits(d.(entries := d.entries + [e])) <==> HasRoom(d)
  {
    hide EntryLines, HeadText;
    var u, n := d.(entries := d.entries + [e]), |d.entries|;
    assert u.entries[..n] == d.entries;
    forall i | 0 <= i <= n ensures |EntryLines(u.entries[..i])| <= |EntryLines(d.entries)| {
      assert u.entries[..i] == d.entries[..i];
      PrefixShorter(d.entries, i);
    }
    if FolderFits(u) { assert |FolderHead(u) + EntryLines(u.entries[..n])| <= BLOCK_SIZE - 128; }
  }
}
