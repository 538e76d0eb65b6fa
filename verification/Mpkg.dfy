/** MPKG archives: a header, a table of fixed-size entries, and the payloads one after the other. */
module Mpkg {
  import opened Lzss
  import opened Options
  import opened Words
  import Kernel = LzssEncoder
  import Mkpkg = MkpkgEncoder
  import Codec = LzssCodec

  const MAGIC: seq<byte> := [0x4D, 0x50, 0x4B, 0x47, 0x30, 0x30, 0x30, 0x31]
  const VERSION := 1
  const HEADER_SIZE := 16
  const NAME_SIZE := 128
  const ENTRY_SIZE := 148
  const FLAG_DIRECTORY := 1
  const METHOD_STORE := 0
  const METHOD_LZSS := 1
  const LZSS_MAX_BYTES := 256 * 1024
  const MAX_ITEMS := 16
  const MAX_PATH := 1024

  // ---- numbers ----

  /** pkg_write_u32. */
  function U32(v: word): (s: seq<byte>)
    ensures |s| == 4
  {
    [v % 256, v / 0x100 % 256, v / 0x1_0000 % 256, v / 0x100_0000 % 256]
  }

  /** pkg_read_u32. */
  function ReadU32(s: seq<byte>, at: nat): word
    requires at + 4 <= |s|
  {
    var (a: int, b: int, c: int, d: int) := (s[at], s[at + 1], s[at + 2], s[at + 3]);
    a + 0x100 * b + 0x1_0000 * c + 0x100_0000 * d
  }

  lemma U32Bytes(v: word)
    ensures v % 256 + 0x100 * (v / 0x100 % 256) + 0x1_0000 * (v / 0x1_0000 % 256) + 0x100_0000 * (v / 0x100_0000 % 256) == v
  {
    var a: int := v / 0x100;
    var b: int := v / 0x1_0000;
    var c: int := v / 0x100_0000;
    assert v == 0x100 * a + v % 256 && a == 0x100 * b + a % 256 && b == 0x100 * c + b % 256 && c % 256 == c;
  }

  /** The four bytes of a number, lowest first. */
  lemma U32Places(v: word)
    ensures var s := U32(v); s[0] as int + 0x100 * s[1] as int + 0x1_0000 * s[2] as int + 0x100_0000 * s[3] as int == v
  {
    U32Bytes(v);
  }

  lemma U32Reads(v: word)
    ensures ReadU32(U32(v), 0) == v
  {
    U32Bytes(v);
  }

  /** Reading depends on the four bytes only. */
  lemma ReadSlice(s: seq<byte>, at: nat, v: word)
    requires at + 4 <= |s| && s[at..at + 4] == U32(v)
    ensures ReadU32(s, at) == v
  {
    U32Reads(v);
    var t := s[at..at + 4];
    assert t[0] == s[at] && t[1] == s[at + 1] && t[2] == s[at + 2] && t[3] == s[at + 3];
    assert ReadU32(s, at) == ReadU32(t, 0);
  }

  // ---- entries ----

  ghost predicate NoZero(s: seq<byte>) { forall i :: 0 <= i < |s| ==> s[i] != 0 }

  type Name = s: seq<byte> | |s| < NAME_SIZE && NoZero(s)

  datatype Record = Record(name: seq<byte>, flags: word, comp: word, rawSize: word, packedSize: word, offset: word)

  function Zeros(n: nat): (s: seq<byte>)
    ensures |s| == n && forall i :: 0 <= i < n ==> s[i] == 0
  {
    seq(n, i => 0)
  }

  function Numbers(r: Record): (s: seq<byte>)
    ensures |s| == 20
  {
    U32(r.flags) + U32(r.comp) + U32(r.rawSize) + U32(r.packedSize) + U32(r.offset)
  }

  function EntryBytes(r: Record): (s: seq<byte>)
    requires |r.name| < NAME_SIZE
    ensures |s| == ENTRY_SIZE
  {
    r.name + Zeros(NAME_SIZE - |r.name|) + Numbers(r)
  }

  /** A name up to its terminating zero. */
  function CName(s: seq<byte>): seq<byte> {
    if s == [] || s[0] == 0 then [] else [s[0]] + CName(s[1..])
  }

  /** pkg_parse_entry. */
  function ParseEntry(raw: seq<byte>): Record
    requires |raw| >= ENTRY_SIZE
  {
    Record(CName(raw[..NAME_SIZE - 1]), ReadU32(raw, 128), ReadU32(raw, 132), ReadU32(raw, 136), ReadU32(raw, 140), ReadU32(raw, 144))
  }

  lemma {:induction false} CNameOf(name: seq<byte>, rest: seq<byte>)
    requires NoZero(name) && (rest == [] || rest[0] == 0)
    ensures CName(name + rest) == name
    decreases |name|
  {
    if name == [] {
      assert name + rest == rest;
    } else {
      assert (name + rest)[1..] == name[1..] + rest;
      CNameOf(name[1..], rest);
    }
  }

  lemma NumbersRead(a: seq<byte>, r: Record)
    requires |a| == NAME_SIZE
    ensures var s := a + Numbers(r);
            && ReadU32(s, 128) == r.flags && ReadU32(s, 132) == r.comp && ReadU32(s, 136) == r.rawSize
            && ReadU32(s, 140) == r.packedSize && ReadU32(s, 144) == r.offset
  {
    hide ReadU32, U32;
    var s := a + Numbers(r);
    assert s[128..132] == U32(r.flags) && s[132..136] == U32(r.comp) && s[136..140] == U32(r.rawSize);
    assert s[140..144] == U32(r.packedSize) && s[144..148] == U32(r.offset);
    ReadSlice(s, 128, r.flags);
    ReadSlice(s, 132, r.comp);
    ReadSlice(s, 136, r.rawSize);
    ReadSlice(s, 140, r.packedSize);
    ReadSlice(s, 144, r.offset);
  }

  /** An entry that was written parses back. */
  lemma EntryReads(r: Record)
    requires |r.name| < NAME_SIZE && NoZero(r.name)
    ensures ParseEntry(EntryBytes(r)) == r
  {
    hide Numbers, CName, ReadU32;
    var field := r.name + Zeros(NAME_SIZE - |r.name|);
    NumbersRead(field, r);
    var rest := Zeros(NAME_SIZE - 1 - |r.name|);
    assert EntryBytes(r)[..NAME_SIZE - 1] == r.name + rest;
    CNameOf(r.name, rest);
  }

  // ---- items and their payloads ----

  datatype Item = Item(name: Name, isDir: bool, raw: seq<byte>)

  datatype Payload = Payload(comp: word, data: seq<byte>)

  /** The payload decodes to the item. */
  ghost predicate Encodes(p: Payload, it: Item) {
    if it.isDir then p == Payload(METHOD_STORE, [])
    else || p == Payload(METHOD_STORE, it.raw)
         || (p.comp == METHOD_LZSS && 0 < |p.data| < |it.raw| &&
             forall memory :: |memory| == N + F - 1 ==> Decoded(p.data, |it.raw|, memory) == it.raw)
  }

  ghost predicate AllEncode(ps: seq<Payload>, items: seq<Item>) {
    |ps| == |items| && forall i :: 0 <= i < |ps| ==> Encodes(ps[i], items[i])
  }

  ghost function SizeOf(ps: seq<Payload>): nat {
    if ps == [] then 0 else SizeOf(ps[..|ps| - 1]) + |ps[|ps| - 1].data|
  }

  ghost function Joined(ps: seq<Payload>): (s: seq<byte>)
    ensures |s| == SizeOf(ps)
  {
    if ps == [] then [] else Joined(ps[..|ps| - 1]) + ps[|ps| - 1].data
  }

  function RawSize(it: Item): nat { if it.isDir then 0 else |it.raw| }

  ghost function TableEnd(n: nat): nat { HEADER_SIZE + n * ENTRY_SIZE }

  /** Sizes and offsets are 32-bit numbers. */
  ghost predicate Fits(items: seq<Item>, ps: seq<Payload>) {
    && |ps| == |items| && TableEnd(|items|) + SizeOf(ps) < WORD
    && forall i :: 0 <= i < |items| ==> RawSize(items[i]) < WORD
  }

  lemma {:induction false} SizeMono(ps: seq<Payload>, i: nat)
    requires i < |ps|
    ensures SizeOf(ps[..i]) + |ps[i].data| <= SizeOf(ps)
    decreases |ps|
  {
    if i < |ps| - 1 {
      SizeMono(ps[..|ps| - 1], i);
      assert ps[..|ps| - 1][..i] == ps[..i];
    }
  }

  /** The entry of item i: its payload starts where those before it end. */
  ghost function RecordOf(items: seq<Item>, ps: seq<Payload>, i: nat): (r: Record)
    requires Fits(items, ps) && i < |items|
    ensures r.name == items[i].name
  {
    SizeMono(ps, i);
    Record(items[i].name, if items[i].isDir then FLAG_DIRECTORY else 0, ps[i].comp, RawSize(items[i]), |ps[i].data|,
           if items[i].isDir then 0 else TableEnd(|items|) + SizeOf(ps[..i]))
  }

  ghost function Table(items: seq<Item>, ps: seq<Payload>, n: nat): (s: seq<byte>)
    requires Fits(items, ps) && n <= |items|
    ensures |s| == n * ENTRY_SIZE
  {
    if n == 0 then [] else Table(items, ps, n - 1) + EntryBytes(RecordOf(items, ps, n - 1))
  }

  ghost function Head(n: word): (s: seq<byte>)
    ensures |s| == HEADER_SIZE
  {
    MAGIC + U32(VERSION) + U32(n)
  }

  /** The archive of the items with these payloads. */
  ghost function Archive(items: seq<Item>, ps: seq<Payload>): (s: seq<byte>)
    requires Fits(items, ps)
    ensures |s| == TableEnd(|items|) + SizeOf(ps)
  {
    Head(|items|) + Table(items, ps, |items|) + Joined(ps)
  }

  // ---- finding entries and payloads in an archive ----

  lemma {:induction false} TableSlice(items: seq<Item>, ps: seq<Payload>, n: nat, i: nat)
    requires Fits(items, ps) && i < n <= |items|
    ensures Table(items, ps, n)[i * ENTRY_SIZE..(i + 1) * ENTRY_SIZE] == EntryBytes(RecordOf(items, ps, i))
    decreases n
  {
    hide RecordOf, EntryBytes;
    var a, b := Table(items, ps, n - 1), EntryBytes(RecordOf(items, ps, n - 1));
    if i < n - 1 {
      TableSlice(items, ps, n - 1, i);
      InFirst(a, b, i * ENTRY_SIZE, ENTRY_SIZE);
    } else {
      InSecond(a, b);
    }
  }

  lemma {:induction false} JoinedSlice(ps: seq<Payload>, i: nat)
    requires i < |ps|
    ensures SizeOf(ps[..i]) + |ps[i].data| <= SizeOf(ps)
    ensures Joined(ps)[SizeOf(ps[..i])..SizeOf(ps[..i]) + |ps[i].data|] == ps[i].data
    decreases |ps|
  {
    var before, last := ps[..|ps| - 1], ps[|ps| - 1].data;
    JoinedLast(ps);
    hide Joined, SizeOf;
    var a, n := SizeOf(ps[..i]), |ps[i].data|;
    if i < |ps| - 1 {
      JoinedSlice(before, i);
      assert before[..i] == ps[..i] && before[i] == ps[i];
      InFirst(Joined(before), last, a, n);
    } else {
      assert ps[..i] == before;
      InSecond(Joined(before), last);
    }
  }

  lemma JoinedLast(ps: seq<Payload>)
    requires ps != []
    ensures Joined(ps) == Joined(ps[..|ps| - 1]) + ps[|ps| - 1].data
    ensures SizeOf(ps) == SizeOf(ps[..|ps| - 1]) + |ps[|ps| - 1].data|
  {
  }

  lemma InFirst(a: seq<byte>, b: seq<byte>, i: nat, n: nat)
    requires i + n <= |a|
    ensures (a + b)[i..i + n] == a[i..i + n]
  {
  }

  lemma InSecond(a: seq<byte>, b: seq<byte>)
    ensures (a + b)[|a|..|a| + |b|] == b
  {
  }

  lemma SliceParts(a: seq<byte>, b: seq<byte>, c: seq<byte>, i: nat, j: nat)
    ensures i <= j <= |b| ==> (a + b + c)[|a| + i..|a| + j] == b[i..j]
    ensures i <= j <= |c| ==> (a + b + c)[|a| + |b| + i..|a| + |b| + j] == c[i..j]
  {
  }

  /** Where entry i stands, and what it parses to. */
  lemma EntryAt(items: seq<Item>, ps: seq<Payload>, i: nat)
    requires Fits(items, ps) && i < |items|
    ensures var at := HEADER_SIZE + i * ENTRY_SIZE;
            at + ENTRY_SIZE <= |Archive(items, ps)| && ParseEntry(Archive(items, ps)[at..at + ENTRY_SIZE]) == RecordOf(items, ps, i)
  {
    hide RecordOf, EntryBytes, ParseEntry, Table, Joined, Head, SizeOf;
    assert (i + 1) * ENTRY_SIZE <= |items| * ENTRY_SIZE;
    TableSlice(items, ps, |items|, i);
    SliceParts(Head(|items|), Table(items, ps, |items|), Joined(ps), i * ENTRY_SIZE, (i + 1) * ENTRY_SIZE);
    EntryReads(RecordOf(items, ps, i));
  }

  /** The payload of a file is found at its offset. */
  lemma PayloadAt(items: seq<Item>, ps: seq<Payload>, i: nat)
    requires Fits(items, ps) && i < |items| && !items[i].isDir
    ensures var r := RecordOf(items, ps, i);
            && TableEnd(|items|) <= r.offset && r.offset + r.packedSize <= |Archive(items, ps)|
            && Archive(items, ps)[r.offset..r.offset + r.packedSize] == ps[i].data
  {
    hide Table, Joined, Head, SizeOf;
    JoinedSlice(ps, i);
    var a := SizeOf(ps[..i]);
    SliceParts(Head(|items|), Table(items, ps, |items|), Joined(ps), a, a + |ps[i].data|);
  }

  /** Payloads of different files do not overlap. */
  lemma PayloadsDisjoint(items: seq<Item>, ps: seq<Payload>, i: nat, j: nat)
    requires Fits(items, ps) && i < j < |items| && !items[i].isDir && !items[j].isDir
    ensures RecordOf(items, ps, i).offset + RecordOf(items, ps, i).packedSize <= RecordOf(items, ps, j).offset
  {
    SizeMono(ps[..j], i);
    assert ps[..j][..i] == ps[..i] && ps[..j][i] == ps[i];
  }

  lemma HeadReads(n: word, rest: seq<byte>)
    ensures var s := Head(n) + rest;
            s[..8] == MAGIC && ReadU32(s, 8) == VERSION && ReadU32(s, 12) == n
  {
    hide ReadU32, U32;
    var s := Head(n) + rest;
    assert s[8..12] == U32(VERSION) && s[12..16] == U32(n);
    ReadSlice(s, 8, VERSION);
    ReadSlice(s, 12, n);
  }

  // ---- extraction ----

  const DOT: byte := 0x2E
  const SLASH: byte := 0x2F

  /** Where the first slash is, or the length without one. */
  ghost function SlashAt(name: seq<byte>): (i: nat)
    ensures i <= |name| && (forall k :: 0 <= k < i ==> name[k] != SLASH) && (i < |name| ==> name[i] == SLASH)
  {
    if name == [] || name[0] == SLASH then 0 else 1 + SlashAt(name[1..])
  }

  /** The name split at its slashes. */
  ghost function Pieces(name: seq<byte>): (ps: seq<seq<byte>>)
    ensures ps != []
    decreases |name|
  {
    var i := SlashAt(name);
    if i == |name| then [name] else [name[..i]] + Pieces(name[i + 1..])
  }

  ghost function JoinPieces(ps: seq<seq<byte>>): seq<byte>
    requires ps != []
  {
    if |ps| == 1 then ps[0] else ps[0] + [SLASH] + JoinPieces(ps[1..])
  }

  /** Joined again, the pieces give the name, and none of them holds a slash. */
  lemma {:induction false} PiecesJoin(name: seq<byte>)
    ensures JoinPieces(Pieces(name)) == name
    ensures forall k :: 0 <= k < |Pieces(name)| ==> SLASH !in Pieces(name)[k]
    decreases |name|
  {
    hide SlashAt;
    var i := SlashAt(name);
    if i < |name| {
      var rest := Pieces(name[i + 1..]);
      PiecesJoin(name[i + 1..]);
      hide Pieces, JoinPieces;
      OnePieceMore(name[..i], rest);
      assert name == name[..i] + [SLASH] + name[i + 1..];
    }
  }

  lemma OnePieceMore(first: seq<byte>, rest: seq<seq<byte>>)
    requires rest != []
    ensures JoinPieces([first] + rest) == first + [SLASH] + JoinPieces(rest)
  {
    assert ([first] + rest)[1..] == rest;
  }

  /** A safe name is relative, and no piece of it leads up. */
  ghost predicate SafeName(name: seq<byte>) {
    name != [] && name[0] != SLASH && [DOT, DOT] !in Pieces(name)
  }

  /** The test in the loop: a piece that leads up starts at p. */
  predicate UpAt(name: seq<byte>, p: nat) {
    && p + 2 <= |name| && name[p] == DOT && name[p + 1] == DOT
    && (p == 0 || name[p - 1] == SLASH) && (p + 2 == |name| || name[p + 2] == SLASH)
  }

  /** Before the second piece the test succeeds at 0 or not at all. */
  lemma UpInFirst(name: seq<byte>, p: nat)
    requires p <= SlashAt(name)
    ensures UpAt(name, p) <==> p == 0 && name[..SlashAt(name)] == [DOT, DOT]
  {
    var i := SlashAt(name);
    if name[..i] == [DOT, DOT] { assert name[0] == name[..i][0] && name[1] == name[..i][1]; }
    if UpAt(name, p) && p == 0 { assert i == 2 && name[..2] == [DOT, DOT]; }
  }

  lemma UpInRest(name: seq<byte>, i: nat, p: nat)
    requires i < p && i < |name| && name[i] == SLASH
    ensures UpAt(name, p) <==> UpAt(name[i + 1..], p - i - 1)
  {
    var rest, q := name[i + 1..], p - i - 1;
    if p + 2 <= |name| {
      assert rest[q] == name[p] && rest[q + 1] == name[p + 1];
      if p + 2 < |name| { assert rest[q + 2] == name[p + 2]; }
      if q > 0 { assert rest[q - 1] == name[p - 1]; }
    }
  }

  /** The test succeeds somewhere exactly when a piece leads up. */
  lemma {:induction false} UpIsPiece(name: seq<byte>)
    ensures (exists p :: 0 <= p < |name| && UpAt(name, p)) <==> [DOT, DOT] in Pieces(name)
    decreases |name|
  {
    hide UpAt, SlashAt;
    var i := SlashAt(name);
    UpInFirst(name, 0);
    if i == |name| {
      assert name[..i] == name;
      forall p | 0 <= p < |name| ensures UpAt(name, p) <==> p == 0 && name == [DOT, DOT] {
        UpInFirst(name, p);
      }
      if name == [DOT, DOT] { assert UpAt(name, 0); }
    } else {
      var rest := name[i + 1..];
      UpIsPiece(rest);
      forall p | 0 <= p < |name| ensures UpAt(name, p) <==> (p == 0 && name[..i] == [DOT, DOT]) || (i < p && UpAt(rest, p - i - 1)) {
        if p <= i { UpInFirst(name, p); } else { UpInRest(name, i, p); }
      }
      if [DOT, DOT] in Pieces(rest) {
        var q :| 0 <= q < |rest| && UpAt(rest, q);
        assert UpAt(name, i + 1 + q);
      }
    }
  }

  /** pkg_name_is_safe. */
  method NameIsSafe(name: seq<byte>) returns (safe: bool)
    ensures safe <==> SafeName(name)
  {
    hide Pieces;
    UpIsPiece(name);
    if name == [] { return false; }
    if name[0] == SLASH { return false; }
    for p := 0 to |name|
      invariant forall q :: 0 <= q < p ==> !UpAt(name, q)
    {
      if UpAt(name, p) { return false; }
    }
    return true;
  }

  datatype Extracted = Directory(name: seq<byte>) | File(name: seq<byte>, data: seq<byte>)

  /** The payload of an entry is inside the archive, if it has one. */
  predicate InRange(r: Record, size: nat) {
    r.packedSize > 0 ==> r.offset < size && r.offset + r.packedSize <= size
  }

  function PayloadOf(r: Record, archive: seq<byte>): seq<byte>
    requires InRange(r, |archive|)
  {
    if r.packedSize == 0 then [] else archive[r.offset..r.offset + r.packedSize]
  }

  /** The name is safe, and with the target directory in front it is shorter than the longest path. */
  ghost predicate Extractable(name: seq<byte>, target: nat) { SafeName(name) && target + 1 + |name| < MAX_PATH }

  /** What an entry stands for, in a target directory with a path of that length. */
  ghost function Extraction(r: Record, archive: seq<byte>, target: nat, memory: seq<byte>): Option<Extracted>
    requires |memory| == N + F - 1
  {
    if !Extractable(r.name, target) then None
    else if r.flags % 2 == 1 then Some(Directory(r.name))
    else if !InRange(r, |archive|) then None
    else if r.comp == METHOD_STORE then
      if r.rawSize != r.packedSize then None else Some(File(r.name, PayloadOf(r, archive)))
    else if r.comp == METHOD_LZSS then
      var out := Decoded(PayloadOf(r, archive), r.rawSize, memory);
      if |out| != r.rawSize then None else Some(File(r.name, out))
    else None
  }

  /** pkg_extract_entry, up to what it writes to the file system. */
  method ExtractEntry(r: Record, archive: seq<byte>, target: nat, memory: seq<byte>) returns (x: Option<Extracted>)
    requires |memory| == N + F - 1
    ensures x == Extraction(r, archive, target, memory)
  {
    hide SafeName, Decoded;
    var safe := NameIsSafe(r.name);
    if !safe { return None; }
    if target + 1 + |r.name| >= MAX_PATH { return None; }
    if r.flags % 2 == 1 { return Some(Directory(r.name)); }
    if r.packedSize > 0 {
      if r.offset >= |archive| || r.offset + r.packedSize > |archive| { return None; }
    }
    var payload := PayloadOf(r, archive);
    if r.comp == METHOD_STORE {
      if r.rawSize != r.packedSize { return None; }
      x := Some(File(r.name, payload));
    } else if r.comp == METHOD_LZSS {
      var out := new byte[r.rawSize];
      var n := Decompress(payload, out, memory);
      if n != r.rawSize { return None; }
      x := Some(File(r.name, out[..n]));
    } else {
      x := None;
    }
  }

  function ItemOf(it: Item): Extracted { if it.isDir then Directory(it.name) else File(it.name, it.raw) }

  /** Every item with a safe name is extracted from its archive as it was. */
  lemma ExtractItem(items: seq<Item>, ps: seq<Payload>, i: nat, target: nat, memory: seq<byte>)
    requires |memory| == N + F - 1 && Fits(items, ps) && AllEncode(ps, items) && i < |items|
    ensures Extraction(RecordOf(items, ps, i), Archive(items, ps), target, memory) ==
            if Extractable(items[i].name, target) then Some(ItemOf(items[i])) else None
  {
    hide SafeName, Decoded, Archive, SizeOf;
    assert Encodes(ps[i], items[i]);
    if !items[i].isDir { PayloadAt(items, ps, i); }
  }

  /** The entry table is there and not empty. */
  ghost predicate Validates(archive: seq<byte>) {
    && |archive| >= HEADER_SIZE && archive[..8] == MAGIC && ReadU32(archive, 8) == VERSION
    && 0 < ReadU32(archive, 12) && ReadU32(archive, 12) * ENTRY_SIZE <= |archive| - HEADER_SIZE
  }

  ghost function EntryOf(archive: seq<byte>, i: nat): Record
    requires HEADER_SIZE + (i + 1) * ENTRY_SIZE <= |archive|
  {
    ParseEntry(archive[HEADER_SIZE + i * ENTRY_SIZE..HEADER_SIZE + i * ENTRY_SIZE + ENTRY_SIZE])
  }

  /** pkg_load_archive, pkg_validate_entry_table and the loop of pkglib_unzip. */
  method Unzip(archive: seq<byte>, target: nat, memory: seq<byte>) returns (r: Option<seq<Option<Extracted>>>)
    requires |memory| == N + F - 1
    ensures r.Some? <==> Validates(archive)
    ensures r.Some? ==> |r.value| == ReadU32(archive, 12)
    ensures r.Some? ==> forall i :: 0 <= i < |r.value| ==> r.value[i] == Extraction(EntryOf(archive, i), archive, target, memory)
  {
    hide Extraction, ParseEntry;
    if |archive| < HEADER_SIZE { return None; }
    if archive[..8] != MAGIC { return None; }
    if ReadU32(archive, 8) != VERSION { return None; }
    var count := ReadU32(archive, 12);
    if count == 0 || count * ENTRY_SIZE > |archive| - HEADER_SIZE { return None; }
    var out: seq<Option<Extracted>> := [];
    for i := 0 to count
      invariant |out| == i
      invariant forall k :: 0 <= k < i ==> out[k] == Extraction(EntryOf(archive, k), archive, target, memory)
    {
      var at := HEADER_SIZE + i * ENTRY_SIZE;
      var x := ExtractEntry(ParseEntry(archive[at..at + ENTRY_SIZE]), archive, target, memory);
      out := out + [x];
    }
    r := Some(out);
  }

  lemma ArchiveValidates(items: seq<Item>, ps: seq<Payload>)
    requires Fits(items, ps)
    ensures ReadU32(Archive(items, ps), 12) == |items|
    ensures Validates(Archive(items, ps)) <==> items != []
  {
    hide Table, Joined, Head, SizeOf, ReadU32;
    var rest := Table(items, ps, |items|) + Joined(ps);
    assert Archive(items, ps) == Head(|items|) + rest;
    HeadReads(|items|, rest);
  }

  /** An archive of at least one item unpacks to its items, in order. */
  lemma ArchiveRoundTrip(items: seq<Item>, ps: seq<Payload>, target: nat, memory: seq<byte>, i: nat)
    requires |memory| == N + F - 1 && Fits(items, ps) && AllEncode(ps, items) && i < |items|
    ensures HEADER_SIZE + (i + 1) * ENTRY_SIZE <= |Archive(items, ps)|
    ensures Extraction(EntryOf(Archive(items, ps), i), Archive(items, ps), target, memory) ==
            if Extractable(items[i].name, target) then Some(ItemOf(items[i])) else None
  {
    hide Extraction, Extractable, Archive, ParseEntry, RecordOf;
    EntryAt(items, ps, i);
    ExtractItem(items, ps, i, target, memory);
  }

  // ---- building, in the kernel ----

  /** The buffer holds the text, and zeros after it. */
  ghost predicate Prefix(buffer: seq<byte>, text: seq<byte>) {
    |text| <= |buffer| && buffer[..|text|] == text && forall k :: |text| <= k < |buffer| ==> buffer[k] == 0
  }

  /** memcpy right behind what is there. */
  method Put(buffer: array<byte>, at: nat, src: seq<byte>, ghost text: seq<byte>)
    requires Prefix(buffer[..], text) && at == |text| && at + |src| <= buffer.Length
    modifies buffer
    ensures Prefix(buffer[..], text + src)
  {
    forall k | 0 <= k < |src| {
      buffer[at + k] := src[k];
    }
    ghost var b, all := buffer[..], text + src;
    forall k | 0 <= k < |all| ensures b[k] == all[k] {
      if k < at { assert old(buffer[..])[..at][k] == text[k]; }
    }
    assert b[..|all|] == all;
  }

  /** Bytes that were never written are zero. */
  lemma Skip(buffer: seq<byte>, text: seq<byte>, n: nat)
    requires Prefix(buffer, text) && |text| + n <= |buffer|
    ensures Prefix(buffer, text + Zeros(n))
  {
    var all := text + Zeros(n);
    forall k | 0 <= k < |all| ensures buffer[k] == all[k] {
      if k < |text| { assert buffer[..|text|][k] == text[k]; }
    }
    assert buffer[..|all|] == all;
  }

  lemma Chain(t: seq<byte>, a: seq<byte>, b: seq<byte>)
    ensures (t + a) + b == t + (a + b)
  {
  }

  /** One entry of the table. */
  method PutEntry(buffer: array<byte>, at: nat, r: Record, ghost text: seq<byte>)
    requires Prefix(buffer[..], text) && at == |text| && at + ENTRY_SIZE <= buffer.Length && |r.name| < NAME_SIZE
    modifies buffer
    ensures Prefix(buffer[..], text + EntryBytes(r))
  {
    hide Prefix, U32;
    Put(buffer, at, r.name, text);
    ghost var gap := Zeros(NAME_SIZE - |r.name|);
    Skip(buffer[..], text + r.name, NAME_SIZE - |r.name|);
    Chain(text, r.name, gap);
    PutNumbers(buffer, at + NAME_SIZE, r, text + (r.name + gap));
    Chain(text, r.name + gap, Numbers(r));
  }

  method PutNumbers(buffer: array<byte>, at: nat, r: Record, ghost text: seq<byte>)
    requires Prefix(buffer[..], text) && at == |text| && at + 20 <= buffer.Length
    modifies buffer
    ensures Prefix(buffer[..], text + Numbers(r))
  {
    hide Prefix, U32;
    Put(buffer, at, U32(r.flags), text);
    Put(buffer, at + 4, U32(r.comp), text + U32(r.flags));
    Put(buffer, at + 8, U32(r.rawSize), text + U32(r.flags) + U32(r.comp));
    Put(buffer, at + 12, U32(r.packedSize), text + U32(r.flags) + U32(r.comp) + U32(r.rawSize));
    Put(buffer, at + 16, U32(r.offset), text + U32(r.flags) + U32(r.comp) + U32(r.rawSize) + U32(r.packedSize));
    assert text + Numbers(r) ==
      text + U32(r.flags) + U32(r.comp) + U32(r.rawSize) + U32(r.packedSize) + U32(r.offset);
  }

  /** What mkpkg.py stores of an item: the packed form when it is shorter. */
  ghost function Choice(it: Item): Payload {
    if it.isDir then Payload(METHOD_STORE, []) else
      var packed := Serialize(Kernel.Greedy(it.raw, 0));
      if |packed| < |it.raw| then Payload(METHOD_LZSS, packed) else Payload(METHOD_STORE, it.raw)
  }

  lemma PackedEncodes(it: Item, syms: seq<Symbol>)
    requires !it.isDir && Spells(it.raw, 0, syms, |it.raw|) && |Serialize(syms)| < |it.raw|
    ensures Encodes(Payload(METHOD_LZSS, Serialize(syms)), it)
  {
    hide Spells, Decoded, Serialize;
    forall memory | |memory| == N + F - 1 ensures Decoded(Serialize(syms), |it.raw|, memory) == it.raw {
      Unpacks(it.raw, syms, memory);
    }
    var memory := Zeros(N + F - 1);
    assert Decoded(Serialize(syms), |it.raw|, memory) == it.raw;
    NothingDecoded(Serialize(syms), |it.raw|, memory);
  }

  lemma NothingDecoded(input: seq<byte>, capacity: nat, memory: seq<byte>)
    requires |memory| == N + F - 1 && Decoded(input, capacity, memory) != []
    ensures input != []
  {
  }

  /** A file of up to 256 KiB is packed when that makes it shorter. */
  ghost predicate PacksShorter(it: Item, useLzss: bool, maxChain: nat) {
    useLzss && !it.isDir && 0 < |it.raw| <= LZSS_MAX_BYTES && |Serialize(Kernel.Limited(it.raw, 0, maxChain))| < |it.raw|
  }

  /** What the kernel stores of an item. */
  ghost function KernelChoice(it: Item, useLzss: bool, maxChain: nat): Payload {
    if PacksShorter(it, useLzss, maxChain) then Payload(METHOD_LZSS, Serialize(Kernel.Limited(it.raw, 0, maxChain)))
    else Payload(METHOD_STORE, if it.isDir then [] else it.raw)
  }

  lemma SameChoice(it: Item, maxChain: nat)
    requires maxChain >= N && RawSize(it) <= LZSS_MAX_BYTES
    ensures KernelChoice(it, true, maxChain) == Choice(it)
  {
    hide Serialize, Kernel.Limited, Kernel.Greedy;
    Kernel.LimitedIsGreedy(it.raw, 0, maxChain);
  }

  /** One round of the payload loop of pkglib_zip. */
  method Pack(it: Item, useLzss: bool, maxChain: nat) returns (p: Payload)
    ensures Encodes(p, it) && |p.data| <= RawSize(it)
    ensures p == KernelChoice(it, useLzss, maxChain)
  {
    hide Spells, Serialize, Kernel.Limited, Kernel.Greedy, Decoded;
    if it.isDir { return Payload(METHOD_STORE, []); }
    if useLzss && 0 < |it.raw| <= LZSS_MAX_BYTES {
      var packed, syms := Kernel.Compress(it.raw, maxChain);
      if |packed| < |it.raw| {
        PackedEncodes(it, syms);
        return Payload(METHOD_LZSS, packed);
      }
    }
    p := Payload(METHOD_STORE, it.raw);
  }

  method PackAll(items: seq<Item>, useLzss: bool, maxChain: nat) returns (ps: seq<Payload>)
    ensures AllEncode(ps, items) && forall i :: 0 <= i < |ps| ==> |ps[i].data| <= RawSize(items[i])
    ensures forall i :: 0 <= i < |ps| ==> ps[i] == KernelChoice(items[i], useLzss, maxChain)
  {
    hide Encodes, KernelChoice;
    ps := [];
    for i := 0 to |items|
      invariant |ps| == i && forall k :: 0 <= k < i ==> Encodes(ps[k], items[k]) && |ps[k].data| <= RawSize(items[k])
      invariant forall k :: 0 <= k < i ==> ps[k] == KernelChoice(items[k], useLzss, maxChain)
    {
      var p := Pack(items[i], useLzss, maxChain);
      ps := ps + [p];
    }
  }

  lemma NoSize(ps: seq<Payload>)
    ensures SizeOf(ps[..0]) == 0
  {
  }

  lemma SizeNext(ps: seq<Payload>, i: nat)
    requires i < |ps|
    ensures SizeOf(ps[..i + 1]) == SizeOf(ps[..i]) + |ps[i].data|
  {
    assert ps[..i + 1][..i] == ps[..i];
  }

  lemma EmptyFolder(p: Payload, it: Item)
    requires Encodes(p, it)
    ensures it.isDir ==> p.data == []
  {
  }

  ghost predicate AllPlaced(items: seq<Item>, ps: seq<Payload>, offsets: seq<word>)
    requires |offsets| == |items| == |ps|
  {
    forall i :: 0 <= i < |items| ==> offsets[i] == if items[i].isDir then 0 else TableEnd(|items|) + SizeOf(ps[..i])
  }

  /** The offset loop of pkglib_zip: fails exactly when the archive would reach 2^32 bytes. */
  method Offsets(items: seq<Item>, ps: seq<Payload>) returns (r: Option<seq<word>>, running: nat)
    requires AllEncode(ps, items) && TableEnd(|items|) < WORD
    ensures r.None? <==> TableEnd(|items|) + SizeOf(ps) >= WORD
    ensures r.Some? ==> running == TableEnd(|items|) + SizeOf(ps) && |r.value| == |items|
    ensures r.Some? ==> AllPlaced(items, ps, r.value)
  {
    hide Encodes, SizeOf;
    assert SizeOf(ps[..0]) == 0 by { NoSize(ps); }
    running := HEADER_SIZE + |items| * ENTRY_SIZE;
    var offsets: seq<word> := [];
    for i := 0 to |items|
      invariant |offsets| == i && running == TableEnd(|items|) + SizeOf(ps[..i]) < WORD
      invariant forall k :: 0 <= k < i ==> offsets[k] == if items[k].isDir then 0 else TableEnd(|items|) + SizeOf(ps[..k])
    {
      SizeNext(ps, i);
      SizeMono(ps, i);
      EmptyFolder(ps[i], items[i]);
      if items[i].isDir {
        offsets := offsets + [0];
      } else {
        if |ps[i].data| > WORD - 1 - running { return None, running; }
        offsets := offsets + [running];
        running := running + |ps[i].data|;
      }
    }
    assert ps[..|ps|] == ps;
    r := Some(offsets);
  }

  /** The writing half of pkglib_zip, into a zeroed buffer. */
  method WriteArchive(items: seq<Item>, ps: seq<Payload>, offsets: seq<word>, running: nat) returns (archive: array<byte>)
    requires Fits(items, ps) && AllEncode(ps, items) && |offsets| == |items| && running == TableEnd(|items|) + SizeOf(ps)
    requires AllPlaced(items, ps, offsets)
    ensures archive[..] == Archive(items, ps)
  {
    archive := new byte[running](_ => 0);
    assert Prefix(archive[..], []);
    PutHead(archive, |items|);
    PutTable(archive, items, ps, offsets);
    PutPayloads(archive, items, ps, offsets);
    assert archive[..][..|Archive(items, ps)|] == archive[..];
  }

  method PutHead(archive: array<byte>, n: word)
    requires Prefix(archive[..], []) && HEADER_SIZE <= archive.Length
    modifies archive
    ensures Prefix(archive[..], Head(n))
  {
    hide Prefix, U32;
    Put(archive, 0, MAGIC, []);
    assert [] + MAGIC == MAGIC;
    Put(archive, 8, U32(VERSION), MAGIC);
    Put(archive, 12, U32(n), MAGIC + U32(VERSION));
  }

  method PutTable(archive: array<byte>, items: seq<Item>, ps: seq<Payload>, offsets: seq<word>)
    requires Fits(items, ps) && |offsets| == |items| && archive.Length == TableEnd(|items|) + SizeOf(ps)
    requires AllPlaced(items, ps, offsets)
    requires Prefix(archive[..], Head(|items|))
    modifies archive
    ensures Prefix(archive[..], Head(|items|) + Table(items, ps, |items|))
  {
    hide Prefix, Head, EntryBytes, SizeOf;
    ghost var head := Head(|items|);
    assert head + Table(items, ps, 0) == head;
    for i := 0 to |items|
      invariant Prefix(archive[..], head + Table(items, ps, i))
    {
      var flags := if items[i].isDir then FLAG_DIRECTORY else 0;
      SizeMono(ps, i);
      var r := Record(items[i].name, flags, ps[i].comp, RawSize(items[i]), |ps[i].data|, offsets[i]);
      assert r == RecordOf(items, ps, i);
      PutEntry(archive, HEADER_SIZE + i * ENTRY_SIZE, r, head + Table(items, ps, i));
      Chain(head, Table(items, ps, i), EntryBytes(r));
    }
  }

  method PutPayloads(archive: array<byte>, items: seq<Item>, ps: seq<Payload>, offsets: seq<word>)
    requires Fits(items, ps) && AllEncode(ps, items) && |offsets| == |items| && archive.Length == TableEnd(|items|) + SizeOf(ps)
    requires AllPlaced(items, ps, offsets)
    requires Prefix(archive[..], Head(|items|) + Table(items, ps, |items|))
    modifies archive
    ensures Prefix(archive[..], Archive(items, ps))
  {
    hide Prefix, Head, Table;
    ghost var text := Head(|items|) + Table(items, ps, |items|);
    assert text + Joined(ps[..0]) == text;
    for i := 0 to |items|
      invariant Prefix(archive[..], text + Joined(ps[..i]))
    {
      assert Encodes(ps[i], items[i]);
      JoinedNext(ps, i, text);
      if !items[i].isDir && |ps[i].data| > 0 {
        SizeMono(ps, i);
        Put(archive, offsets[i], ps[i].data, text + Joined(ps[..i]));
      } else {
        assert ps[i].data == [];
        assert text + Joined(ps[..i]) + [] == text + Joined(ps[..i]);
      }
    }
    assert ps[..|ps|] == ps;
  }

  lemma JoinedNext(ps: seq<Payload>, i: nat, text: seq<byte>)
    requires i < |ps|
    ensures text + Joined(ps[..i + 1]) == text + Joined(ps[..i]) + ps[i].data
  {
    assert ps[..i + 1][..i] == ps[..i];
    Chain(text, Joined(ps[..i]), ps[i].data);
  }

  /** pkglib_zip, from the list of items to the bytes of the archive. */
  method Zip(items: seq<Item>, useLzss: bool, maxChain: nat) returns (out: Option<seq<byte>>, ps: seq<Payload>)
    requires forall i :: 0 <= i < |items| ==> RawSize(items[i]) < WORD
    ensures AllEncode(ps, items) && forall i :: 0 <= i < |ps| ==> |ps[i].data| <= RawSize(items[i])
    ensures out.None? <==> items == [] || |items| > MAX_ITEMS || !Fits(items, ps)
    ensures out.Some? ==> out.value == Archive(items, ps)
    ensures forall i :: 0 <= i < |ps| ==> ps[i] == KernelChoice(items[i], useLzss, maxChain)
  {
    hide Encodes, KernelChoice, Archive;
    ps := PackAll(items, useLzss, maxChain);
    if |items| == 0 || |items| > MAX_ITEMS { return None, ps; }
    var offsets, running := Offsets(items, ps);
    if offsets == None { return None, ps; }
    var archive := WriteArchive(items, ps, offsets.value, running);
    out := Some(archive[..]);
  }

  /** One to 16 items of less than 2^32 bytes in all are archived, and whatever was archived is unpacked: every item
      that can be extracted comes back, in order. */
  method ZipAndUnzip(items: seq<Item>, useLzss: bool, maxChain: nat, target: nat, memory: seq<byte>)
    returns (archive: Option<seq<byte>>, r: Option<seq<Option<Extracted>>>)
    requires |memory| == N + F - 1 && forall i :: 0 <= i < |items| ==> RawSize(items[i]) < WORD
    ensures 0 < |items| <= MAX_ITEMS && TableEnd(|items|) + RawTotal(items) < WORD ==> archive.Some?
    ensures archive.Some? ==> 0 < |items| <= MAX_ITEMS && r.Some? && |r.value| == |items|
    ensures archive.Some? ==>
              forall i :: 0 <= i < |items| ==> r.value[i] == if Extractable(items[i].name, target) then Some(ItemOf(items[i])) else None
  {
    hide AllEncode, Archive, Extraction, Extractable, Validates, ReadU32, EntryOf, KernelChoice, SizeOf, RawTotal;
    var ps;
    archive, ps := Zip(items, useLzss, maxChain);
    assert |ps| == |items| by { SameCount(ps, items); }
    SmallPayloads(items, ps);
    r := None;
    if archive == None { return; }
    ArchiveValidates(items, ps);
    r := Unzip(archive.value, target, memory);
    forall i | 0 <= i < |items| ensures r.value[i] == if Extractable(items[i].name, target) then Some(ItemOf(items[i])) else None {
      ArchiveRoundTrip(items, ps, target, memory, i);
    }
  }

  lemma SameCount(ps: seq<Payload>, items: seq<Item>)
    requires AllEncode(ps, items)
    ensures |ps| == |items|
  {
  }

  // ---- building, with mkpkg.py ----

  function RawTotal(items: seq<Item>): nat {
    if items == [] then 0 else RawTotal(items[..|items| - 1]) + RawSize(items[|items| - 1])
  }

  lemma ChoiceEncodes(it: Item)
    ensures Encodes(Choice(it), it) && |Choice(it).data| <= RawSize(it)
  {
    hide Spells, Decoded, Serialize, Kernel.Greedy;
    if !it.isDir && |Serialize(Kernel.Greedy(it.raw, 0))| < |it.raw| {
      Codec.GreedySpells(it.raw, 0);
      PackedEncodes(it, Kernel.Greedy(it.raw, 0));
    }
  }

  lemma {:induction false} SmallPayloads(items: seq<Item>, ps: seq<Payload>)
    requires |ps| == |items| && forall i :: 0 <= i < |ps| ==> |ps[i].data| <= RawSize(items[i])
    ensures SizeOf(ps) <= RawTotal(items)
    decreases |items|
  {
    if items != [] { SmallPayloads(items[..|items| - 1], ps[..|ps| - 1]); }
  }

  lemma {:induction false} RawBelow(items: seq<Item>, i: nat)
    requires i < |items|
    ensures RawSize(items[i]) <= RawTotal(items)
    decreases |items|
  {
    if i < |items| - 1 { RawBelow(items[..|items| - 1], i); }
  }

  /** What mkpkg.py stores of an item, with and without --store. */
  ghost function Stored(it: Item, store: bool): Payload {
    if store then Payload(METHOD_STORE, if it.isDir then [] else it.raw) else Choice(it)
  }

  lemma StoredEncodes(it: Item, store: bool)
    ensures Encodes(Stored(it, store), it) && |Stored(it, store).data| <= RawSize(it)
  {
    hide Choice, Decoded;
    ChoiceEncodes(it);
  }

  ghost function AllStored(items: seq<Item>, store: bool): (ps: seq<Payload>)
    ensures |ps| == |items| && forall i :: 0 <= i < |ps| ==> ps[i] == Stored(items[i], store)
  {
    seq(|items|, i requires 0 <= i < |items| => Stored(items[i], store))
  }

  lemma StoredFits(items: seq<Item>, store: bool)
    requires TableEnd(|items|) + RawTotal(items) < WORD
    ensures Fits(items, AllStored(items, store)) && AllEncode(AllStored(items, store), items)
  {
    hide Stored, Encodes, SizeOf, RawTotal;
    var ps := AllStored(items, store);
    forall i | 0 <= i < |items| ensures Encodes(ps[i], items[i]) && |ps[i].data| <= RawSize(items[i]) < WORD {
      StoredEncodes(items[i], store);
      RawBelow(items, i);
    }
    SmallPayloads(items, ps);
  }

  /** One round of the entry loop of mkpkg.py. */
  method MkpkgPack(it: Item, store: bool) returns (p: Payload)
    ensures p == Stored(it, store)
  {
    hide Serialize, Kernel.Greedy;
    if it.isDir { return Payload(METHOD_STORE, []); }
    if !store {
      var packed := Mkpkg.Compress(it.raw);
      if |packed| < |it.raw| { return Payload(METHOD_LZSS, packed); }
    }
    p := Payload(METHOD_STORE, it.raw);
  }

  /** build in mkpkg.py, from the collected entries to the bytes that are written. */
  method Build(items: seq<Item>, store: bool) returns (out: seq<byte>)
    requires TableEnd(|items|) + RawTotal(items) < WORD
    ensures Fits(items, AllStored(items, store)) && AllEncode(AllStored(items, store), items)
    ensures out == Archive(items, AllStored(items, store))
  {
    hide Stored, Table, Joined, Head, EntryBytes, Encodes, RawTotal, SizeOf;
    StoredFits(items, store);
    ghost var ps := AllStored(items, store);
    var table: seq<byte>, payload: seq<byte> := [], [];
    var offset := HEADER_SIZE + |items| * ENTRY_SIZE;
    assert Table(items, ps, 0) == [] && Joined(ps[..0]) == [] && SizeOf(ps[..0]) == 0 by { NothingYet(items, ps); }
    for i := 0 to |items|
      invariant table == Table(items, ps, i) && payload == Joined(ps[..i]) && offset == TableEnd(|items|) + SizeOf(ps[..i])
    {
      var p := MkpkgPack(items[i], store);
      SizeMono(ps, i);
      SizeNext(ps, i);
      JoinedNext(ps, i, []);
      assert [] + Joined(ps[..i + 1]) == Joined(ps[..i + 1]) && [] + Joined(ps[..i]) == Joined(ps[..i]);
      EmptyFolder(ps[i], items[i]);
      var r := if items[i].isDir then Record(items[i].name, FLAG_DIRECTORY, METHOD_STORE, 0, 0, 0)
               else Record(items[i].name, 0, p.comp, |items[i].raw|, |p.data|, offset);
      StoredRecord(items, ps, i, p);
      TableNext(items, ps, i);
      table := table + EntryBytes(r);
      payload := payload + p.data;
      offset := offset + |p.data|;
    }
    assert ps[..|ps|] == ps;
    out := MAGIC + U32(VERSION) + U32(|items|) + table + payload;
    assert Head(|items|) == MAGIC + U32(VERSION) + U32(|items|) by { HeadIs(|items|); }
  }

  lemma NothingYet(items: seq<Item>, ps: seq<Payload>)
    requires Fits(items, ps)
    ensures Table(items, ps, 0) == [] && Joined(ps[..0]) == [] && SizeOf(ps[..0]) == 0
  {
  }

  lemma HeadIs(n: word)
    ensures Head(n) == MAGIC + U32(VERSION) + U32(n)
  {
  }

  lemma TableNext(items: seq<Item>, ps: seq<Payload>, i: nat)
    requires Fits(items, ps) && i < |items|
    ensures Table(items, ps, i + 1) == Table(items, ps, i) + EntryBytes(RecordOf(items, ps, i))
  {
  }

  lemma StoredRecord(items: seq<Item>, ps: seq<Payload>, i: nat, p: Payload)
    requires Fits(items, ps) && AllEncode(ps, items) && i < |items| && p == ps[i]
    ensures items[i].isDir ==> RecordOf(items, ps, i) == Record(items[i].name, FLAG_DIRECTORY, METHOD_STORE, 0, 0, 0)
  {
    hide Decoded;
    assert Encodes(ps[i], items[i]);
  }

  /** With chains over the whole window, files up to 256 KiB and compression asked for, the kernel and mkpkg.py
      write the same archive. */
  method SameArchive(items: seq<Item>, maxChain: nat) returns (kernel: Option<seq<byte>>, mkpkg: seq<byte>)
    requires 0 < |items| <= MAX_ITEMS && TableEnd(|items|) + RawTotal(items) < WORD && maxChain >= N
    requires forall i :: 0 <= i < |items| ==> RawSize(items[i]) <= LZSS_MAX_BYTES
    ensures kernel == Some(mkpkg)
  {
    hide AllEncode, Fits, Archive, Choice, KernelChoice, RawTotal;
    assert forall i :: 0 <= i < |items| ==> RawSize(items[i]) < WORD;
    var ps;
    kernel, ps := Zip(items, true, maxChain);
    mkpkg := Build(items, false);
    SameCount(ps, items);
    forall i | 0 <= i < |ps| ensures ps[i] == Choice(items[i]) {
      SameChoice(items[i], maxChain);
    }
    assert ps == AllStored(items, false) by { ChoicesStored(items, ps); }
  }

  lemma ChoicesStored(items: seq<Item>, ps: seq<Payload>)
    requires AllEncode(ps, items) && forall i :: 0 <= i < |ps| ==> ps[i] == Choice(items[i])
    ensures ps == AllStored(items, false)
  {
    hide Choice, Encodes;
  }
}
