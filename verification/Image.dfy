/** A file on the disk, from both ends: the header that is written in front of the data, and what opening the
    file and appending to it make of that header when they read it back. */
module Image {
  import opened Text
  import opened Tags
  import opened Descriptors
  import opened FileHeader
  import opened Layout

  /** What the string functions see of a buffer. */
  function CString(s: string): string { s[..IndexOf(s, NUL)] }

  /** The bytes of a file with this record and this data. */
  ghost function FileText(m: FileMeta, data: string): string { PrintHeader(m) + data + FOOTER }

  /** What is visible behind the header in the first block: the data up to its first zero byte. */
  ghost function Visible(m: FileMeta, data: string): string
    requires |PrintHeader(m)| <= BLOCK_SIZE
  {
    CString(BlockOf(FileText(m, data), 0)[|PrintHeader(m)|..])
  }

  // ---- the printed header: no zero byte, fits a block, one data marker ----

  ghost predicate NoNul(s: string) { forall i :: 0 <= i < |s| ==> s[i] != NUL }

  lemma LineNoNul(f: Field)
    requires FieldOk(f)
    ensures NoNul(Line(f))
  {
    KeyChars(f.tag);
    var n, b := |Key(f.tag)|, Body(f);
    forall k | 0 <= k < |Line(f)| ensures Line(f)[k] != NUL {
      if k < n {
        assert Line(f)[k] == Key(f.tag)[k];
        assert 0 < k <= |f.tag| ==> Key(f.tag)[1 + (k - 1)] == f.tag[k - 1] && TagChar(f.tag[k - 1]);
      } else if k < n + |b| {
        assert Line(f)[k] == b[k - n];
        assert f.quoted && 0 < k - n < |b| - 1 ==> b[k - n] == f.value[k - n - 1];
      }
    }
  }

  lemma {:induction false} LinesNoNul(fields: seq<Field>)
    requires AllOk(fields)
    ensures NoNul(Lines(fields))
  {
    if fields != [] {
      LineNoNul(fields[0]);
      LinesNoNul(fields[1..]);
      hide Line;
    }
  }

  lemma HeaderNoNul(m: FileMeta)
    requires MetaOk(m)
    ensures NoNul(PrintHeader(m))
  {
    HeaderFieldsOk(m);
    LinesNoNul(HeaderFields(m));
    hide HeaderFields, Lines;
  }

  lemma LinesCons(f: Field, rest: seq<Field>)
    ensures |Lines([f] + rest)| == |Line(f)| + |Lines(rest)|
  {
    assert ([f] + rest)[1..] == rest;
  }

  lemma LineLength(f: Field)
    ensures |Line(f)| <= |f.tag| + |f.value| + 6
  {
  }

  lemma RunFieldsLength(m: FileMeta)
    requires MetaOk(m)
    ensures |Lines(RunFields(m) + [Bare("HIDDEN", Flag(m.hidden))])| <= 1200
  {
    EntrypointOk(m.entrypoint);
    hide Line, Hex, Lines, Clean;
    var last := [Bare("HIDDEN", Flag(m.hidden))];
    LineLength(last[0]);
    LinesCons(last[0], []);
    assert last == last + [] && |Lines([])| == 0 by { LinesEmpty(); }
    var w := Bare("RUNWITH", m.runWith);
    LineLength(w);
    var a := if m.runnable && m.runWith != "" then [w] + last else last;
    LinesCons(w, last);
    var e := Bare("ENTRYPOINT", "0x" + Hex(m.entrypoint));
    LineLength(e);
    LinesCons(e, a);
    var b := if m.runnable && m.entrypoint != 0 then [e] + a else a;
    var r := Bare("RUNNABLE", if m.runnable then "True" else "False");
    LineLength(r);
    LinesCons(r, b);
    assert RunFields(m) + last == [r] + b;
  }

  lemma LinesEmpty()
    ensures Lines([]) == []
  {
  }

  /** Every header of a record within the ranges of its C fields fits in one block. */
  lemma HeaderFits(m: FileMeta)
    requires MetaOk(m)
    ensures |PrintHeader(m)| <= 3000
  {
    NumberOk(m.fileLength);
    NumberOk(m.dataLength);
    RunFieldsLength(m);
    hide Line, Decimal, Lines, Clean, RunFields, Hex;
    var f8 := RunFields(m) + [Bare("HIDDEN", Flag(m.hidden))];
    var f := [Bare("FILETYPE", m.filetype), Bare("FILEFORMAT", m.fileformat),
              Number("FILELEN", m.fileLength), Number("DATALEN", m.dataLength),
              Quoted("FILENAME", m.filename), Quoted("CREATEDDATE", m.created),
              Quoted("LASTCHANGED", m.lastChanged), Quoted("PARENTFOLDER", m.parentFolder)];
    assert HeaderFields(m) == f + f8;
    LinesEight(f, f8);
  }

  lemma LinesEight(f: seq<Field>, rest: seq<Field>)
    requires |f| == 8
    ensures |Lines(f + rest)| <= |Lines(rest)| + 8 * 6 + |f[0].tag| + |f[0].value| + |f[1].tag| + |f[1].value|
      + |f[2].tag| + |f[2].value| + |f[3].tag| + |f[3].value| + |f[4].tag| + |f[4].value| + |f[5].tag| + |f[5].value|
      + |f[6].tag| + |f[6].value| + |f[7].tag| + |f[7].value|
  {
    hide Line, Lines;
    LinesFour(f[4..], rest);
    LinesFour(f[..4], f[4..] + rest);
    assert f[..4] + (f[4..] + rest) == f + rest;
  }

  lemma LinesFour(f: seq<Field>, rest: seq<Field>)
    requires |f| == 4
    ensures |Lines(f + rest)| <= |Lines(rest)| + 4 * 6 + |f[0].tag| + |f[0].value| + |f[1].tag| + |f[1].value|
      + |f[2].tag| + |f[2].value| + |f[3].tag| + |f[3].value|
  {
    hide Line, Lines;
    LineLength(f[0]);
    LineLength(f[1]);
    LineLength(f[2]);
    LineLength(f[3]);
    LinesCons(f[3], rest);
    LinesCons(f[2], [f[3]] + rest);
    LinesCons(f[1], [f[2]] + ([f[3]] + rest));
    LinesCons(f[0], [f[1]] + ([f[2]] + ([f[3]] + rest)));
    assert f + rest == [f[0]] + ([f[1]] + ([f[2]] + ([f[3]] + rest)));
  }

  lemma NoMarkerInLine(f: Field, rest: string, k: nat)
    requires FieldOk(f) && k < |Line(f)|
    ensures !PrefixAt(Line(f) + rest, k, DATA_LINE)
  {
    var s := Line(f) + rest;
    PrefixChar(s, k, DATA_LINE, 0);
    PrefixChar(s, k, DATA_LINE, 1);
    if k == 0 {
      assert TagName("DATA") && Marker("DATA") == "@DATA@";
      var i := MarkerDiffers("DATA", f.tag);
      PrefixChar(s, 0, DATA_LINE, i);
      assert s[i] == Key(f.tag)[i] && DATA_LINE[i] == Marker("DATA")[i];
    } else if k < |Line(f)| - 2 {
      AtSigns(f, k);
    } else {
      assert Line(f)[|Line(f)| - 1] == '\n';
    }
  }

  lemma {:induction false} FindDataLine(fields: seq<Field>, tail: string)
    requires AllOk(fields)
    ensures Find(From(fields, tail), DATA_LINE) == |Lines(fields)|
    decreases |fields|
  {
    if fields == [] {
      assert From(fields, tail) == DATA_LINE + tail;
      assert (DATA_LINE + tail)[..|DATA_LINE|] == DATA_LINE;
    } else {
      FromCons(fields, tail);
      assert FieldOk(fields[0]) && AllOk(fields[1..]);
      hide Find, Line, From, FieldOk, AllOk, PrefixAt;
      FindDataLine(fields[1..], tail);
      var b := From(fields[1..], tail);
      forall k | 0 <= k < |Line(fields[0])| ensures !PrefixAt(Line(fields[0]) + b, k, DATA_LINE) {
        NoMarkerInLine(fields[0], b, k);
      }
      FindAfter(Line(fields[0]), b, DATA_LINE);
    }
  }

  lemma NoMarkerInFirst(s: string, k: nat)
    requires k < |HEADER_LINE|
    ensures !PrefixAt(HEADER_LINE + s, k, DATA_LINE)
  {
    PrefixChar(HEADER_LINE + s, k, DATA_LINE, 0);
    PrefixChar(HEADER_LINE + s, k, DATA_LINE, 1);
  }

  /** The first data marker is the one that ends the header, whatever the data. */
  lemma FindData(m: FileMeta, tail: string)
    requires MetaOk(m)
    ensures Find(PrintHeader(m) + tail, DATA_LINE) == |PrintHeader(m)| - 7 >= 0
  {
    HeaderFieldsOk(m);
    var f := HeaderFields(m);
    var s := From(f, tail);
    hide HeaderFields, Lines, AllOk, Find, PrefixAt;
    FindDataLine(f, tail);
    forall k | 0 <= k < |HEADER_LINE| ensures !PrefixAt(HEADER_LINE + s, k, DATA_LINE) {
      NoMarkerInFirst(s, k);
    }
    FindAfter(HEADER_LINE, s, DATA_LINE);
    Assoc(HEADER_LINE + Lines(f), DATA_LINE, tail);
    Assoc(HEADER_LINE, Lines(f), DATA_LINE + tail);
  }

  // ---- the first block, read back ----

  lemma CStringSplit(s: string, n: nat)
    requires n <= |s| && NoNul(s[..n])
    ensures CString(s) == s[..n] + CString(s[n..])
  {
    var i := IndexOf(s[n..], NUL);
    forall k | 0 <= k < n + i ensures s[k] != NUL {
      if k < n { assert s[..n][k] == s[k]; } else { assert s[n..][k - n] == s[k]; }
    }
    if n + i < |s| {
      assert s[n..][i] == s[n + i];
      IndexOfIs(s, NUL, n + i);
    } else {
      var j := IndexOf(s, NUL);
      assert j == |s|;
    }
    assert s[..n + i] == s[..n] + s[n..][..i];
  }

  lemma FirstBlock(m: FileMeta, data: string)
    requires MetaOk(m)
    ensures |PrintHeader(m)| <= BLOCK_SIZE
    ensures CString(BlockOf(FileText(m, data), 0)) == PrintHeader(m) + Visible(m, data)
  {
    HeaderFits(m);
    HeaderNoNul(m);
    hide PrintHeader, CString;
    var b := BlockOf(FileText(m, data), 0);
    assert b[..|PrintHeader(m)|] == PrintHeader(m);
    CStringSplit(b, |PrintHeader(m)|);
  }

  /** What is visible is a beginning of the data and the footer. */
  lemma VisiblePrefix(m: FileMeta, data: string)
    requires |PrintHeader(m)| <= BLOCK_SIZE
    ensures |Visible(m, data)| <= |data + FOOTER|
    ensures forall i :: 0 <= i < |Visible(m, data)| ==> Visible(m, data)[i] == (data + FOOTER)[i]
  {
    hide PrintHeader;
    var h, v, b := |PrintHeader(m)|, Visible(m, data), BlockOf(FileText(m, data), 0);
    assert FileText(m, data) == PrintHeader(m) + (data + FOOTER);
    forall i | 0 <= i < |v| ensures v[i] == At(data + FOOTER, i) != NUL {
      assert v[i] == b[h..][i] == b[h + i] == At(FileText(m, data), h + i);
    }
    if |v| > 0 { assert At(data + FOOTER, |v| - 1) != NUL; }
  }

  /** A tag that is not in the data is not visible behind the header. */
  lemma VisibleFree(m: FileMeta, data: string, tag: string)
    requires |PrintHeader(m)| <= BLOCK_SIZE && TagName(tag) && Find(data, Key(tag)) == -1
    ensures Find(Visible(m, data), Key(tag)) == -1
  {
    VisiblePrefix(m, data);
    hide Visible, PrintHeader, Find, TagName;
    KeyChars(tag);
    NoKeyInPrefix(data, Visible(m, data), Key(tag));
  }

  /** A word that ends in a colon and is not in the data is not in a beginning of data and footer either. */
  lemma NoKeyInPrefix(data: string, v: string, key: string)
    requires key != [] && key[|key| - 1] == ':' && Find(data, key) == -1
    requires |v| <= |data + FOOTER| && forall i :: 0 <= i < |v| ==> v[i] == (data + FOOTER)[i]
    ensures Find(v, key) == -1
  {
    hide Find;
    var n := |key| - 1;
    forall k | 0 <= k <= |v| ensures !PrefixAt(v, k, key) {
      PrefixChar(v, k, key, n);
      if k + n < |data| && k + |key| <= |v| {
        assert !PrefixAt(data, k, key);
        assert v[k..k + |key|] == data[k..k + |key|];
      } else if k + |key| <= |v| {
        assert (data + FOOTER)[k + n] == FOOTER[k + n - |data|] != ':';
      }
    }
    var r := Find(v, key);
    assert r != -1 ==> PrefixAt(v, r, key);
  }
}
