/** The header in front of a file's data: printed as tagged lines between @HEADER@ and @DATA@, and parsed by a
    line loop whose lookups are not bounded to the line. */
module FileHeader {
  import opened Text
  import opened Options
  import opened Words
  import opened Tags
  import opened Descriptors

  datatype FileMeta = FileMeta(
    filetype: string, fileformat: string, fileLength: nat, dataLength: nat, filename: string,
    created: string, lastChanged: string, parentFolder: string,
    runnable: bool, entrypoint: nat, runWith: string, hidden: bool)

  const ZERO_META := FileMeta("", "", 0, 0, "", "", "", "", false, 0, "", false)

  const HEADER_LINE := "@HEADER@\n"
  const DATA_LINE := "@DATA@\n"

  // ---- printing ----

  function RunFields(m: FileMeta): seq<Field> {
    if !m.runnable then [Bare("RUNNABLE", "False")] else
      [Bare("RUNNABLE", "True")]
      + (if m.entrypoint != 0 then [Bare("ENTRYPOINT", "0x" + Hex(m.entrypoint))] else [])
      + (if m.runWith != "" then [Bare("RUNWITH", m.runWith)] else [])
  }

  function HeaderFields(m: FileMeta): seq<Field> {
    [Bare("FILETYPE", m.filetype), Bare("FILEFORMAT", m.fileformat),
     Number("FILELEN", m.fileLength), Number("DATALEN", m.dataLength),
     Quoted("FILENAME", m.filename), Quoted("CREATEDDATE", m.created),
     Quoted("LASTCHANGED", m.lastChanged), Quoted("PARENTFOLDER", m.parentFolder)]
    + RunFields(m) + [Bare("HIDDEN", Flag(m.hidden))]
  }

  /** minimafs_generate_file_header. */
  function PrintHeader(m: FileMeta): string {
    HEADER_LINE + Lines(HeaderFields(m)) + DATA_LINE
  }

  // ---- parsing ----

  function AfterLine(s: string): (r: string)
    ensures s != [] ==> |r| < |s|
  {
    var i := IndexOf(s, '\n');
    if i < |s| then s[i + 1..] else []
  }

  predicate Stops(s: string) { s == [] || "@DATA@" <= s }

  /** What the line loop leaves in a string field: the last line from which the tag can be seen wins. */
  ghost function LastString(s: string, tag: string, max: nat): Option<string>
    requires max > 0
    decreases |s|
  {
    if Stops(s) then None else
      var r := LastString(AfterLine(s), tag, max);
      if r.Some? then r else ParseTag(s, tag, max)
  }

  ghost function LastNumber(s: string, tag: string): Option<nat>
    decreases |s|
  {
    if Stops(s) then None else
      var r := LastNumber(AfterLine(s), tag);
      if r.Some? then r else if Find(s, Key(tag)) != -1 then Some(ParseNumber(s, tag)) else None
  }

  ghost function LastBool(s: string, tag: string): Option<bool>
    decreases |s|
  {
    if Stops(s) then None else
      var r := LastBool(AfterLine(s), tag);
      if r.Some? then r else if Find(s, Key(tag)) != -1 then Some(ParseBool(s, tag)) else None
  }

  function Or<T>(o: Option<T>, default: T): T {
    match o case Some(v) => v case None => default
  }

  /** The record after the loop went over s, starting from m. */
  ghost function Scan(m: FileMeta, s: string): FileMeta {
    FileMeta(
      Or(LastString(s, "FILETYPE", 64), m.filetype), Or(LastString(s, "FILEFORMAT", 16), m.fileformat),
      Or(Word(LastNumber(s, "FILELEN")), m.fileLength), Or(Word(LastNumber(s, "DATALEN")), m.dataLength),
      Or(LastString(s, "FILENAME", 256), m.filename), Or(LastString(s, "CREATEDDATE", 32), m.created),
      Or(LastString(s, "LASTCHANGED", 32), m.lastChanged), Or(LastString(s, "PARENTFOLDER", 1024), m.parentFolder),
      Or(LastBool(s, "RUNNABLE"), m.runnable), Or(LastNumber(s, "ENTRYPOINT"), m.entrypoint),
      Or(LastString(s, "RUNWITH", 1024), m.runWith), Or(LastBool(s, "HIDDEN"), m.hidden))
  }

  function Word(o: Option<nat>): Option<nat> {
    match o case Some(v) => Some(v % WORD) case None => None
  }

  /** minimafs_parse_file_header. */
  ghost function ParseHeader(s: string): Option<FileMeta> {
    if "@HEADER@" <= s then Some(Scan(ZERO_META, s)) else None
  }

  function SeeNumber(s: string, tag: string, before: nat, wrap: nat): nat
    requires wrap > 0
  {
    if Find(s, Key(tag)) != -1 then ParseNumber(s, tag) % wrap else before
  }

  function SeeBool(s: string, tag: string, before: bool): bool {
    if Find(s, Key(tag)) != -1 then ParseBool(s, tag) else before
  }

  /** The body of the loop for one line. */
  function SeeLine(m: FileMeta, s: string): FileMeta {
    FileMeta(
      Or(ParseTag(s, "FILETYPE", 64), m.filetype), Or(ParseTag(s, "FILEFORMAT", 16), m.fileformat),
      SeeNumber(s, "FILELEN", m.fileLength, WORD), SeeNumber(s, "DATALEN", m.dataLength, WORD),
      Or(ParseTag(s, "FILENAME", 256), m.filename), Or(ParseTag(s, "CREATEDDATE", 32), m.created),
      Or(ParseTag(s, "LASTCHANGED", 32), m.lastChanged), Or(ParseTag(s, "PARENTFOLDER", 1024), m.parentFolder),
      SeeBool(s, "RUNNABLE", m.runnable), SeeNumber(s, "ENTRYPOINT", m.entrypoint, LONG),
      Or(ParseTag(s, "RUNWITH", 1024), m.runWith), SeeBool(s, "HIDDEN", m.hidden))
  }

  lemma ScanLine(m: FileMeta, s: string)
    requires !Stops(s)
    ensures Scan(SeeLine(m, s), AfterLine(s)) == Scan(m, s)
  {
    hide ParseTag, ParseNumber, ParseBool, Find, AfterLine;
  }

  lemma ScanStop(m: FileMeta, s: string)
    requires Stops(s)
    ensures Scan(m, s) == m
  {
  }

  method ParseFileHeader(data: string) returns (meta: Option<FileMeta>)
    ensures meta == ParseHeader(data)
  {
    hide Scan, SeeLine;
    if !("@HEADER@" <= data) { return None; }
    var m, line := ZERO_META, data;
    while !Stops(line)
      invariant Scan(m, line) == Scan(ZERO_META, data)
      decreases |line|
    {
      ScanLine(m, line);
      m := SeeLine(m, line);
      line := AfterLine(line);
    }
    ScanStop(m, line);
    meta := Some(m);
  }

  // ---- markers and lines seen by the loop ----

  function Marker(name: string): string { "@" + name + "@" }

  /** A marker and a key differ before either ends. */
  lemma MarkerDiffers(name: string, tag: string) returns (i: nat)
    requires TagName(name) && TagName(tag)
    ensures i < |Marker(name)| && i < |Key(tag)| && Marker(name)[i] != Key(tag)[i]
  {
    KeyChars(tag);
    if k :| 0 <= k < |name| && k < |tag| && name[k] != tag[k] {
      i := k + 1;
    } else {
      i := (if |name| < |tag| then |name| else |tag|) + 1;
      assert |name| < |tag| ==> TagChar(tag[|name|]) && Key(tag)[1 + |name|] == tag[|name|];
      assert |tag| < |name| ==> TagChar(name[|tag|]) && Marker(name)[1 + |tag|] == name[|tag|];
    }
  }

  lemma NotInMarker(name: string, rest: string, tag: string, k: nat)
    requires TagName(name) && TagName(tag) && k < |Marker(name) + "\n"|
    ensures !PrefixAt(Marker(name) + "\n" + rest, k, Key(tag))
  {
    var s := Marker(name) + "\n" + rest;
    KeyChars(tag);
    PrefixChar(s, k, Key(tag), 0);
    PrefixChar(s, k, Key(tag), 1);
    if k == 0 {
      var i := MarkerDiffers(name, tag);
      PrefixChar(s, 0, Key(tag), i);
      assert s[i] == Marker(name)[i];
    } else if k <= |name| {
      assert s[k] == name[k - 1] && TagChar(name[k - 1]);
    } else {
      assert TagChar(tag[0]);
    }
  }

  lemma FindNone(a: string, b: string, p: string)
    requires forall k :: 0 <= k < |a| ==> !PrefixAt(a + b, k, p)
    requires Find(b, p) == -1
    ensures Find(a + b, p) == -1
  {
    hide Find;
    var s, r := a + b, Find(a + b, p);
    forall k | 0 <= k <= |s| ensures !PrefixAt(s, k, p) {
      if k >= |a| { ShiftPrefix(a, b, p, k - |a|); }
    }
    assert r == -1 || PrefixAt(s, r, p);
  }

  ghost predicate Absent(fields: seq<Field>, tag: string) {
    forall i :: 0 <= i < |fields| ==> fields[i].tag != tag
  }

  /** The text from some line on: the remaining fields, the data marker and what follows it. */
  ghost function From(fields: seq<Field>, tail: string): string { Lines(fields) + (DATA_LINE + tail) }

  /** The parser sees the same of the tag from s as from the tail. */
  ghost predicate SameView(s: string, tail: string, tag: string) {
    && (Find(s, Key(tag)) == -1 <==> Find(tail, Key(tag)) == -1)
    && forall max: nat :: max > 0 ==> ParseTag(s, tag, max) == ParseTag(tail, tag, max)
  }

  lemma ViewAfter(a: string, b: string, tag: string)
    requires forall k :: 0 <= k < |a| ==> !PrefixAt(a + b, k, Key(tag))
    ensures SameView(a + b, b, tag)
  {
    var key := Key(tag);
    hide Find, ValueAt, Key;
    if Find(b, key) == -1 {
      FindNone(a, b, key);
    } else {
      FindAfter(a, b, key);
      var at := Find(b, key) + |key|;
      assert (a + b)[|a| + at..] == b[at..];
    }
  }

  lemma ViewNumber(s: string, tail: string, tag: string)
    requires SameView(s, tail, tag)
    ensures ParseNumber(s, tag) == ParseNumber(tail, tag) && ParseBool(s, tag) == ParseBool(tail, tag)
  {
    hide ParseTag, Find, Value, DecimalValue;
    assert ParseTag(s, tag, 32) == ParseTag(tail, tag, 32) && ParseTag(s, tag, 16) == ParseTag(tail, tag, 16);
  }

  /** Past the lines of other tags and the data marker, the parser looks into the data. */
  lemma {:induction false} TailView(fields: seq<Field>, tail: string, tag: string)
    requires AllOk(fields) && TagName(tag) && Absent(fields, tag)
    ensures SameView(From(fields, tail), tail, tag)
    decreases |fields|
  {
    if fields == [] {
      assert TagName("DATA") && Marker("DATA") + "\n" == DATA_LINE;
      hide Find, ParseTag;
      forall k | 0 <= k < |DATA_LINE| ensures !PrefixAt(DATA_LINE + tail, k, Key(tag)) {
        NotInMarker("DATA", tail, tag, k);
      }
      ViewAfter(DATA_LINE, tail, tag);
      assert From(fields, tail) == DATA_LINE + tail;
    } else {
      FromCons(fields, tail);
      assert FieldOk(fields[0]);
      hide Find, Lines, Line, From, ParseTag;
      TailView(fields[1..], tail, tag);
      var b := From(fields[1..], tail);
      forall k | 0 <= k < |Line(fields[0])| ensures !PrefixAt(Line(fields[0]) + b, k, Key(tag)) {
        NotInLine(fields[0], b, tag, k);
      }
      ViewAfter(Line(fields[0]), b, tag);
    }
  }

  lemma FromCons(fields: seq<Field>, tail: string)
    requires fields != []
    ensures From(fields, tail) == Line(fields[0]) + From(fields[1..], tail)
  {
    hide Line;
    Assoc(Line(fields[0]), Lines(fields[1..]), DATA_LINE + tail);
  }

  lemma LineEnds(f: Field, rest: string)
    requires FieldOk(f)
    ensures AfterLine(Line(f) + rest) == rest && !Stops(Line(f) + rest)
  {
    var s, n, b := Line(f) + rest, |Key(f.tag)|, Body(f);
    KeyChars(f.tag);
    forall k | 0 <= k < |Line(f)| - 1 ensures s[k] != '\n' {
      assert s[k] == Line(f)[k];
      if k < n {
        assert Line(f)[k] == Key(f.tag)[k];
        assert 0 < k <= |f.tag| ==> Key(f.tag)[1 + (k - 1)] == f.tag[k - 1] && TagChar(f.tag[k - 1]);
      } else if k < n + |b| {
        assert Line(f)[k] == b[k - n];
        assert f.quoted && 0 < k - n < |b| - 1 ==> b[k - n] == f.value[k - n - 1];
      }
    }
    IndexOfIs(s, '\n', |Line(f)| - 1);
    assert TagName("DATA") && Marker("DATA") == "@DATA@";
    var i := MarkerDiffers("DATA", f.tag);
    assert s[i] == Key(f.tag)[i];
  }

  lemma DataStops(tail: string)
    ensures Stops(DATA_LINE + tail)
  {
  }

  // ---- what the loop finds in a printed header ----

  /** A number or a flag as it is seen in the data. */
  ghost function TailNumber(tail: string, tag: string): Option<nat> {
    if Find(tail, Key(tag)) != -1 then Some(ParseNumber(tail, tag)) else None
  }

  ghost function TailBool(tail: string, tag: string): Option<bool> {
    if Find(tail, Key(tag)) != -1 then Some(ParseBool(tail, tag)) else None
  }

  /** A tag that no line has comes from the data. */
  lemma {:induction false} LastAbsent(fields: seq<Field>, tail: string, tag: string, max: nat)
    requires AllOk(fields) && TagName(tag) && Absent(fields, tag) && max > 0
    ensures LastString(From(fields, tail), tag, max) == if fields == [] then None else ParseTag(tail, tag, max)
    ensures LastNumber(From(fields, tail), tag) == if fields == [] then None else TailNumber(tail, tag)
    ensures LastBool(From(fields, tail), tag) == if fields == [] then None else TailBool(tail, tag)
    decreases |fields|
  {
    if fields == [] {
      DataStops(tail);
      assert From(fields, tail) == DATA_LINE + tail;
    } else {
      TailView(fields, tail, tag);
      FromCons(fields, tail);
      assert FieldOk(fields[0]);
      hide Find, Lines, Line, From, AfterLine, Stops, ParseNumber, ParseBool, ParseTag, TagName, Clean;
      ViewNumber(From(fields, tail), tail, tag);
      LineEnds(fields[0], From(fields[1..], tail));
      LastAbsent(fields[1..], tail, tag, max);
    }
  }

  /** What the line of a tag says, unless a later line still sees the tag in the data. */
  ghost function Override<T>(last: bool, seen: Option<T>, printed: T): Option<T> {
    if last then Some(printed) else Some(Or(seen, printed))
  }

  lemma {:induction false} LastPresent(fields: seq<Field>, tail: string, i: nat, max: nat)
    requires i < |fields| && AllOk(fields) && Distinct(fields) && |fields[i].value| < max
    ensures var s, tag, last := From(fields, tail), fields[i].tag, i == |fields| - 1;
            && LastString(s, tag, max) == Override(last, ParseTag(tail, tag, max), fields[i].value)
            && LastNumber(s, tag) == Override(last, TailNumber(tail, tag), ParseNumber(From(fields[i..], tail), tag))
            && LastBool(s, tag) == Override(last, TailBool(tail, tag), ParseBool(From(fields[i..], tail), tag))
    decreases i
  {
    var f, tag, b := fields[0], fields[i].tag, From(fields[1..], tail);
    FromCons(fields, tail);
    assert FieldOk(f);
    LineEnds(f, b);
    hide Find, Lines, Line, From, AfterLine, Stops, ParseNumber, ParseBool, ParseTag, TailNumber, TailBool, Key, FieldOk, AllOk,
         Distinct, Or, LastString, LastNumber, LastBool;
    if i == 0 {
      OwnLine(fields, tail, max);
      OthersAbsent(fields);
      LastAbsent(fields[1..], tail, tag, max);
      assert fields[0..] == fields;
      LastHere(Line(f) + b, b, tail, tag, max, |fields| == 1);
    } else {
      FieldsTail(fields, i);
      LastPresent(fields[1..], tail, i - 1, max);
      assert fields[1..][i - 1..] == fields[i..];
      LastLater(Line(f) + b, b, tag, max);
    }
  }

  /** A later line that shows the tag wins. */
  lemma LastLater(s: string, b: string, tag: string, max: nat)
    requires max > 0 && !Stops(s) && AfterLine(s) == b
    requires LastString(b, tag, max).Some? && LastNumber(b, tag).Some? && LastBool(b, tag).Some?
    ensures LastString(s, tag, max) == LastString(b, tag, max)
    ensures LastNumber(s, tag) == LastNumber(b, tag) && LastBool(s, tag) == LastBool(b, tag)
  {
  }

  lemma OthersAbsent(fields: seq<Field>)
    requires fields != [] && AllOk(fields) && Distinct(fields)
    ensures AllOk(fields[1..]) && Absent(fields[1..], fields[0].tag) && TagName(fields[0].tag)
  {
  }

  /** The line of the tag itself, when the later lines show only the data. */
  lemma LastHere(s: string, b: string, tail: string, tag: string, max: nat, last: bool)
    requires max > 0 && !Stops(s) && AfterLine(s) == b && Find(s, Key(tag)) != -1 && ParseTag(s, tag, max).Some?
    requires LastString(b, tag, max) == if last then None else ParseTag(tail, tag, max)
    requires LastNumber(b, tag) == if last then None else TailNumber(tail, tag)
    requires LastBool(b, tag) == if last then None else TailBool(tail, tag)
    ensures LastString(s, tag, max) == Override(last, ParseTag(tail, tag, max), ParseTag(s, tag, max).value)
    ensures LastNumber(s, tag) == Override(last, TailNumber(tail, tag), ParseNumber(s, tag))
    ensures LastBool(s, tag) == Override(last, TailBool(tail, tag), ParseBool(s, tag))
  {
    hide Find, Key, ParseTag, ParseNumber, ParseBool, AfterLine, Stops, TailNumber, TailBool;
  }

  lemma OwnLine(fields: seq<Field>, tail: string, max: nat)
    requires fields != [] && AllOk(fields) && Distinct(fields) && |fields[0].value| < max
    ensures ParseTag(From(fields, tail), fields[0].tag, max) == Some(fields[0].value)
    ensures Find(From(fields, tail), Key(fields[0].tag)) != -1
  {
    ParsePrinted(fields, DATA_LINE + tail, 0, max);
    FindLine(fields, DATA_LINE + tail, 0);
  }

  // ---- the round trip ----

  /** The ranges of the C fields, and strings without delimiters or, when printed bare, trailing blanks. */
  ghost predicate MetaOk(m: FileMeta) {
    && BareOk(m.filetype, 64) && BareOk(m.fileformat, 16) && BareOk(m.runWith, 1024)
    && m.fileLength < WORD && m.dataLength < WORD && m.entrypoint < LONG
    && Clean(m.filename) && |m.filename| < 256
    && Clean(m.created) && |m.created| < 32 && Clean(m.lastChanged) && |m.lastChanged| < 32
    && Clean(m.parentFolder) && |m.parentFolder| < 1024
  }

  ghost predicate BareOk(s: string, max: nat) {
    Clean(s) && |s| < max && (s == [] || !Blank(s[|s| - 1]))
  }

  /** Fields that are not printed for files that cannot be run come back as zero. */
  ghost function Printed(m: FileMeta): FileMeta {
    if m.runnable then m else m.(entrypoint := 0, runWith := "")
  }

  const TAGS := ["FILETYPE", "FILEFORMAT", "FILELEN", "DATALEN", "FILENAME", "CREATEDDATE", "LASTCHANGED", "PARENTFOLDER",
                 "RUNNABLE", "ENTRYPOINT", "RUNWITH", "HIDDEN"]

  lemma HeaderTagNames()
    ensures TagName("FILETYPE") && TagName("FILEFORMAT") && TagName("FILELEN") && TagName("DATALEN")
    ensures TagName("FILENAME") && TagName("CREATEDDATE") && TagName("LASTCHANGED") && TagName("PARENTFOLDER")
    ensures TagName("RUNNABLE") && TagName("ENTRYPOINT") && TagName("RUNWITH") && TagName("HIDDEN")
  {
  }

  lemma {:induction false} HexDigits(n: nat)
    ensures forall i :: 0 <= i < |Hex(n)| ==> IsDigit(Hex(n)[i]) || 'A' <= Hex(n)[i] <= 'F'
  {
    if n >= 16 {
      HexDigits(n / 16);
      assert Hex(n) == Hex(n / 16) + [Digit(n % 16)];
    }
  }

  lemma {:induction false} HexLength(n: nat, k: nat)
    requires k > 0 && n < Power16(k)
    ensures |Hex(n)| <= k
    decreases k
  {
    if n >= 16 { HexLength(n / 16, k - 1); }
  }

  function Power16(k: nat): nat { if k == 0 then 1 else 16 * Power16(k - 1) }

  lemma EntrypointOk(n: nat)
    requires n < LONG
    ensures FieldOk(Bare("ENTRYPOINT", "0x" + Hex(n))) && |"0x" + Hex(n)| <= 18
  {
    HeaderTagNames();
    HexDigits(n);
    assert Power16(4) == 0x1_0000 && Power16(8) == 0x1_0000_0000 && Power16(12) == 0x1_0000_0000_0000;
    assert Power16(16) == LONG;
    HexLength(n, 16);
    hide Hex;
    var v := "0x" + Hex(n);
    forall i | 0 <= i < |v| ensures v[i] != '@' && v[i] != '\'' && v[i] != '\n' && v[i] != NUL && !Blank(v[i]) {
      assert i >= 2 ==> v[i] == Hex(n)[i - 2];
    }
  }

  lemma RunFieldsOk(m: FileMeta)
    requires MetaOk(m)
    ensures AllOk(RunFields(m))
  {
    HeaderTagNames();
    EntrypointOk(m.entrypoint);
    hide TagName, Hex;
  }

  lemma HeaderFieldsOk(m: FileMeta)
    requires MetaOk(m)
    ensures AllOk(HeaderFields(m))
  {
    HeaderTagNames();
    RunFieldsOk(m);
    hide TagName, Decimal, Clean, RunFields;
    NumberFieldOk("FILELEN", m.fileLength);
    NumberFieldOk("DATALEN", m.dataLength);
    assert FieldOk(Bare("HIDDEN", Flag(m.hidden))) by { FlagOk(m.hidden); }
  }

  lemma FlagOk(b: bool)
    ensures Clean(Flag(b)) && Flag(b) != [] && !Blank(Flag(b)[|Flag(b)| - 1])
  {
  }

  lemma HeaderDistinct(m: FileMeta)
    ensures Distinct(HeaderFields(m))
  {
    hide Decimal, Hex, Flag;
  }

  lemma FirstLine(s: string)
    ensures AfterLine(HEADER_LINE + s) == s && !Stops(HEADER_LINE + s) && "@HEADER@" <= HEADER_LINE + s
  {
    IndexOfIs(HEADER_LINE + s, '\n', 8);
    assert (HEADER_LINE + s)[1] == 'H';
  }

  /** The whole text that the parser sees. */
  ghost function Whole(fields: seq<Field>, tail: string): string { HEADER_LINE + From(fields, tail) }

  lemma Seen(fields: seq<Field>, tail: string, i: nat, max: nat)
    requires i < |fields| && AllOk(fields) && Distinct(fields) && |fields[i].value| < max
    ensures var s, tag, last := Whole(fields, tail), fields[i].tag, i == |fields| - 1;
            && LastString(s, tag, max) == Override(last, ParseTag(tail, tag, max), fields[i].value)
            && LastNumber(s, tag) == Override(last, TailNumber(tail, tag), ParseNumber(From(fields[i..], tail), tag))
            && LastBool(s, tag) == Override(last, TailBool(tail, tag), ParseBool(From(fields[i..], tail), tag))
  {
    hide Find, From, AfterLine, Stops, ParseNumber, ParseBool, ParseTag, AllOk, Distinct, TailNumber, TailBool, Or;
    LastPresent(fields, tail, i, max);
    FirstLine(From(fields, tail));
  }

  lemma Unseen(fields: seq<Field>, tail: string, tag: string, max: nat)
    requires fields != [] && AllOk(fields) && TagName(tag) && Absent(fields, tag) && max > 0
    ensures LastString(Whole(fields, tail), tag, max) == ParseTag(tail, tag, max)
    ensures LastNumber(Whole(fields, tail), tag) == TailNumber(tail, tag)
    ensures LastBool(Whole(fields, tail), tag) == TailBool(tail, tag)
  {
    hide Find, From, AfterLine, Stops, ParseNumber, ParseBool, AllOk, TagName, ParseTag, Key, SameView, Absent;
    var s := From(fields, tail);
    TailView(fields, tail, tag);
    LastAbsent(fields, tail, tag, max);
    HeaderView(s, tag);
    ViewAgain(HEADER_LINE + s, s, tail, tag, max);
    FirstLine(s);
  }

  lemma HeaderView(s: string, tag: string)
    requires TagName(tag)
    ensures SameView(HEADER_LINE + s, s, tag)
  {
    assert TagName("HEADER") && Marker("HEADER") + "\n" == HEADER_LINE;
    hide TagName, Key, Find, ParseTag, SameView, PrefixAt;
    forall k | 0 <= k < |HEADER_LINE| ensures !PrefixAt(HEADER_LINE + s, k, Key(tag)) {
      NotInMarker("HEADER", s, tag, k);
    }
    ViewAfter(HEADER_LINE, s, tag);
  }

  lemma ViewAgain(s: string, mid: string, tail: string, tag: string, max: nat)
    requires SameView(s, mid, tag) && SameView(mid, tail, tag) && max > 0
    ensures ParseTag(s, tag, max) == ParseTag(tail, tag, max)
    ensures TailNumber(s, tag) == TailNumber(tail, tag) && TailBool(s, tag) == TailBool(tail, tag)
  {
    ViewNumber(s, mid, tag);
    ViewNumber(mid, tail, tag);
    hide Find, ParseTag, ParseNumber, ParseBool, Key;
  }

  lemma SeenNumber(fields: seq<Field>, tail: string, i: nat, n: nat)
    requires i < |fields| - 1 && AllOk(fields) && Distinct(fields)
    requires n < LONG && fields[i].value == Decimal(n)
    ensures LastNumber(Whole(fields, tail), fields[i].tag) == Some(Or(TailNumber(tail, fields[i].tag), n))
  {
    var g := fields[i..];
    assert AllOk(g) && Distinct(g) && g[0] == fields[i];
    hide Find, AllOk, Distinct, Lines, Decimal, LastNumber, ParseNumber, TailNumber, TailBool, ParseTag;
    NumberOk(n);
    Seen(fields, tail, i, 32);
    NumberRoundTrip(g, DATA_LINE + tail, 0, n);
  }

  lemma SeenBool(fields: seq<Field>, tail: string, i: nat, b: bool)
    requires i < |fields| && AllOk(fields) && Distinct(fields) && fields[i].value == Flag(b)
    ensures LastBool(Whole(fields, tail), fields[i].tag) == Override(i == |fields| - 1, TailBool(tail, fields[i].tag), b)
  {
    var g := fields[i..];
    assert AllOk(g) && Distinct(g) && g[0] == fields[i];
    hide Find, AllOk, Distinct, Lines, LastBool, ParseBool, TailNumber, TailBool, ParseTag;
    Seen(fields, tail, i, 16);
    BoolRoundTrip(g, DATA_LINE + tail, 0, b);
  }

  lemma SeenHex(fields: seq<Field>, tail: string, i: nat, n: nat)
    requires i < |fields| - 1 && AllOk(fields) && Distinct(fields)
    requires n < LONG && fields[i].value == "0x" + Hex(n)
    ensures LastNumber(Whole(fields, tail), fields[i].tag) == Some(Or(TailNumber(tail, fields[i].tag), n))
  {
    var g := fields[i..];
    assert AllOk(g) && Distinct(g) && g[0] == fields[i];
    hide Find, AllOk, Distinct, Lines, LastNumber, ParseNumber, ParseTag, Hex, FieldOk, TailNumber, TailBool;
    EntrypointOk(n);
    Seen(fields, tail, i, 32);
    ParsePrinted(g, DATA_LINE + tail, 0, 32);
    ReadHex(Lines(g) + (DATA_LINE + tail), g[0].tag, n);
  }

  lemma ReadHex(s: string, tag: string, n: nat)
    requires n < LONG && ParseTag(s, tag, 32) == Some("0x" + Hex(n))
    ensures ParseNumber(s, tag) == n
  {
    hide ParseTag, Digits, Value, DecimalValue;
    var v := "0x" + Hex(n);
    assert v[2..] == Hex(n) && v[0] == '0' && v[1] == 'x';
    ValueDigits(n, 16);
  }

  lemma SeenString(fields: seq<Field>, tail: string, i: nat, max: nat)
    requires i < |fields| - 1 && AllOk(fields) && Distinct(fields) && |fields[i].value| < max
    ensures LastString(Whole(fields, tail), fields[i].tag, max) == Some(Or(ParseTag(tail, fields[i].tag, max), fields[i].value))
  {
    hide Find, AllOk, Distinct, Lines, LastString, ParseTag, ParseNumber, TailNumber, TailBool, Whole, From;
    Seen(fields, tail, i, max);
  }

  lemma HeaderFieldList(m: FileMeta)
    ensures var f := HeaderFields(m);
            && |f| >= 10
            && f[0] == Bare("FILETYPE", m.filetype) && f[1] == Bare("FILEFORMAT", m.fileformat)
            && f[2] == Number("FILELEN", m.fileLength) && f[3] == Number("DATALEN", m.dataLength)
            && f[4] == Quoted("FILENAME", m.filename) && f[5] == Quoted("CREATEDDATE", m.created)
            && f[6] == Quoted("LASTCHANGED", m.lastChanged) && f[7] == Quoted("PARENTFOLDER", m.parentFolder)
            && f[8] == Bare("RUNNABLE", Flag(m.runnable)) && f[|f| - 1] == Bare("HIDDEN", Flag(m.hidden))
            && f[9..|f| - 1] == RunFields(m)[1..]
  {
    hide Decimal, Hex;
    var f, r := HeaderFields(m), RunFields(m);
    assert |f| == 8 + |r| + 1;
    assert f[8] == r[0] && f[|f| - 1] == Bare("HIDDEN", Flag(m.hidden));
  }

  /** The strings and numbers that every header has. */
  lemma AlwaysPrinted(m: FileMeta, tail: string)
    requires MetaOk(m)
    ensures var s := Whole(HeaderFields(m), tail);
            && LastString(s, "FILETYPE", 64) == Some(Or(ParseTag(tail, "FILETYPE", 64), m.filetype))
            && LastString(s, "FILEFORMAT", 16) == Some(Or(ParseTag(tail, "FILEFORMAT", 16), m.fileformat))
            && LastNumber(s, "FILELEN") == Some(Or(TailNumber(tail, "FILELEN"), m.fileLength))
            && LastNumber(s, "DATALEN") == Some(Or(TailNumber(tail, "DATALEN"), m.dataLength))
            && LastString(s, "FILENAME", 256) == Some(Or(ParseTag(tail, "FILENAME", 256), m.filename))
            && LastString(s, "CREATEDDATE", 32) == Some(Or(ParseTag(tail, "CREATEDDATE", 32), m.created))
            && LastString(s, "LASTCHANGED", 32) == Some(Or(ParseTag(tail, "LASTCHANGED", 32), m.lastChanged))
            && LastString(s, "PARENTFOLDER", 1024) == Some(Or(ParseTag(tail, "PARENTFOLDER", 1024), m.parentFolder))
            && LastBool(s, "RUNNABLE") == Some(Or(TailBool(tail, "RUNNABLE"), m.runnable))
            && LastBool(s, "HIDDEN") == Some(m.hidden)
  {
    HeaderFieldList(m);
    HeaderFieldsOk(m);
    HeaderDistinct(m);
    hide HeaderFields, RunFields, AllOk, Distinct, Find, Key, Decimal, LastString, LastNumber, LastBool, Whole, Clean, Flag,
         ParseTag, TailNumber, TailBool, Or;
    var f := HeaderFields(m);
    SeenString(f, tail, 0, 64);
    SeenString(f, tail, 1, 16);
    SeenNumber(f, tail, 2, m.fileLength);
    SeenNumber(f, tail, 3, m.dataLength);
    SeenString(f, tail, 4, 256);
    SeenString(f, tail, 5, 32);
    SeenString(f, tail, 6, 32);
    SeenString(f, tail, 7, 1024);
    SeenBool(f, tail, 8, m.runnable);
    SeenBool(f, tail, |f| - 1, m.hidden);
  }

  lemma HeaderAbsent(m: FileMeta)
    ensures !(m.runnable && m.entrypoint != 0) ==> Absent(HeaderFields(m), "ENTRYPOINT")
    ensures !(m.runnable && m.runWith != "") ==> Absent(HeaderFields(m), "RUNWITH")
  {
    hide Decimal, Hex, Flag;
  }

  lemma SometimesPrinted(m: FileMeta, tail: string)
    requires MetaOk(m)
    ensures var s := Whole(HeaderFields(m), tail);
            && Or(LastNumber(s, "ENTRYPOINT"), 0) == Or(TailNumber(tail, "ENTRYPOINT"), Printed(m).entrypoint)
            && Or(LastString(s, "RUNWITH", 1024), "") == Or(ParseTag(tail, "RUNWITH", 1024), Printed(m).runWith)
  {
    HeaderFieldList(m);
    HeaderFieldsOk(m);
    HeaderDistinct(m);
    HeaderTagNames();
    HeaderAbsent(m);
    hide HeaderFields, AllOk, Distinct, Find, Key, Decimal, Hex, LastString, LastNumber, LastBool, Whole, Clean, TagName, Absent,
         ParseTag, TailNumber, TailBool;
    var f, r := HeaderFields(m), RunFields(m);
    if m.runnable && m.entrypoint != 0 {
      assert f[9] == f[9..|f| - 1][0] == r[1];
      SeenHex(f, tail, 9, m.entrypoint);
    } else {
      Unseen(f, tail, "ENTRYPOINT", 1024);
    }
    if m.runnable && m.runWith != "" {
      assert f[|f| - 2] == f[9..|f| - 1][|f| - 11] == r[|r| - 1];
      SeenString(f, tail, |f| - 2, 1024);
    } else {
      Unseen(f, tail, "RUNWITH", 1024);
    }
  }

  /** What the parser makes of a printed header depends on what follows it: as if the loop looked at the data
      once more, except that HIDDEN, which is printed last, stays. */
  ghost function AsRead(m: FileMeta, tail: string): FileMeta {
    SeeLine(Printed(m), tail).(hidden := m.hidden)
  }

  lemma WordSmall(seen: Option<nat>, n: nat)
    requires n < WORD
    ensures Or(Word(Some(Or(seen, n))), 0) == Or(Word(seen), n)
  {
  }

  lemma HeaderRead(m: FileMeta, tail: string)
    requires MetaOk(m)
    ensures ParseHeader(PrintHeader(m) + tail) == Some(AsRead(m, tail))
  {
    hide HeaderFields, Lines, LastString, LastNumber, LastBool, Clean, Find, ParseTag, ParseNumber, ParseBool, Key;
    AlwaysPrinted(m, tail);
    SometimesPrinted(m, tail);
    WordSmall(TailNumber(tail, "FILELEN"), m.fileLength);
    WordSmall(TailNumber(tail, "DATALEN"), m.dataLength);
    FirstLine(From(HeaderFields(m), tail));
    Assoc(HEADER_LINE + Lines(HeaderFields(m)), DATA_LINE, tail);
    Assoc(HEADER_LINE, Lines(HeaderFields(m)), DATA_LINE + tail);
  }

  /** No tag of the header occurs in the text that follows it. */
  ghost predicate TagFree(tail: string) {
    forall i :: 0 <= i < |TAGS| ==> Find(tail, Key(TAGS[i])) == -1
  }

  lemma TagFreeEach(tail: string)
    requires TagFree(tail)
    ensures Find(tail, Key("FILETYPE")) == -1 && Find(tail, Key("FILEFORMAT")) == -1 && Find(tail, Key("FILELEN")) == -1
    ensures Find(tail, Key("DATALEN")) == -1 && Find(tail, Key("FILENAME")) == -1 && Find(tail, Key("CREATEDDATE")) == -1
    ensures Find(tail, Key("LASTCHANGED")) == -1 && Find(tail, Key("PARENTFOLDER")) == -1 && Find(tail, Key("RUNNABLE")) == -1
    ensures Find(tail, Key("ENTRYPOINT")) == -1 && Find(tail, Key("RUNWITH")) == -1 && Find(tail, Key("HIDDEN")) == -1
  {
    hide Find, Key;
    assert TAGS[0] == "FILETYPE" && TAGS[1] == "FILEFORMAT" && TAGS[2] == "FILELEN" && TAGS[3] == "DATALEN";
    assert TAGS[4] == "FILENAME" && TAGS[5] == "CREATEDDATE" && TAGS[6] == "LASTCHANGED" && TAGS[7] == "PARENTFOLDER";
    assert TAGS[8] == "RUNNABLE" && TAGS[9] == "ENTRYPOINT" && TAGS[10] == "RUNWITH" && TAGS[11] == "HIDDEN";
  }

  /** No string tag of the header has a value in the tail, and no number or flag tag occurs in it. HIDDEN, which
      is printed last, may. */
  ghost predicate Harmless(tail: string) {
    && ParseTag(tail, "FILETYPE", 64) == None && ParseTag(tail, "FILEFORMAT", 16) == None
    && ParseTag(tail, "FILENAME", 256) == None && ParseTag(tail, "CREATEDDATE", 32) == None
    && ParseTag(tail, "LASTCHANGED", 32) == None && ParseTag(tail, "PARENTFOLDER", 1024) == None
    && ParseTag(tail, "RUNWITH", 1024) == None
    && Find(tail, Key("FILELEN")) == -1 && Find(tail, Key("DATALEN")) == -1
    && Find(tail, Key("RUNNABLE")) == -1 && Find(tail, Key("ENTRYPOINT")) == -1
  }

  lemma HarmlessKeeps(m: FileMeta, tail: string)
    requires Harmless(tail)
    ensures AsRead(m, tail) == Printed(m)
  {
    hide ParseTag, ParseNumber, ParseBool, Find, Key;
  }

  const OTHER_META := FileMeta("a", "a", 1, 1, "a", "a", "a", "a", true, 1, "a", true)

  lemma OtherMetaOk()
    ensures MetaOk(ZERO_META) && MetaOk(OTHER_META)
  {
  }

  /** A tail that changes neither of two records that differ in every field shows nothing. */
  lemma BothKept(tail: string)
    requires AsRead(ZERO_META, tail) == Printed(ZERO_META) && AsRead(OTHER_META, tail) == Printed(OTHER_META)
    ensures Harmless(tail)
  {
    hide ParseTag, ParseNumber, ParseBool, Find, Key;
  }

  /** The header round trip: every record comes back from in front of a tail if and only if the tail is harmless. */
  lemma HeaderRoundTrip(tail: string)
    ensures (forall m :: MetaOk(m) ==> ParseHeader(PrintHeader(m) + tail) == Some(Printed(m))) <==> Harmless(tail)
  {
    hide ParseHeader, PrintHeader, AsRead, Harmless, MetaOk;
    if Harmless(tail) {
      forall m | MetaOk(m) ensures ParseHeader(PrintHeader(m) + tail) == Some(Printed(m)) {
        HeaderRead(m, tail);
        HarmlessKeeps(m, tail);
      }
    } else {
      OtherMetaOk();
      HeaderRead(ZERO_META, tail);
      HeaderRead(OTHER_META, tail);
      if ParseHeader(PrintHeader(ZERO_META) + tail) == Some(Printed(ZERO_META)) &&
         ParseHeader(PrintHeader(OTHER_META) + tail) == Some(Printed(OTHER_META)) {
        BothKept(tail);
      }
    }
  }

  lemma TagFreeHarmless(tail: string)
    requires TagFree(tail)
    ensures Harmless(tail)
  {
    TagFreeEach(tail);
    hide Find, Key, ValueAt;
  }
}
