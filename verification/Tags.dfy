/** The tagged lines of MinimaFS descriptors: "@TAG:value@" and "@TAG:'value'@". The parser looks a tag up
    with strstr, anywhere in the text that follows. */
module Tags {
  import opened Options
  import opened Text

  datatype Field = Field(tag: string, quoted: bool, value: string)

  ghost predicate TagChar(c: char) { 'A' <= c <= 'Z' || c == '_' }

  ghost predicate TagName(tag: string) {
    tag != [] && forall i :: 0 <= i < |tag| ==> TagChar(tag[i])
  }

  /** No delimiter of the format occurs in the text. */
  ghost predicate Clean(s: string) {
    forall i :: 0 <= i < |s| ==> s[i] != '@' && s[i] != '\'' && s[i] != '\n' && s[i] != NUL
  }

  predicate Blank(c: char) { c == ' ' || c == '\t' }

  /** Printed without quotes, trailing blanks would be trimmed. */
  ghost predicate FieldOk(f: Field) {
    TagName(f.tag) && Clean(f.value) && (f.quoted || f.value == [] || !Blank(f.value[|f.value| - 1]))
  }

  // ---- printing ----

  function Key(tag: string): string { "@" + tag + ":" }

  function Body(f: Field): string { if f.quoted then "'" + f.value + "'" else f.value }

  function Line(f: Field): string { Key(f.tag) + Body(f) + "@\n" }

  function Lines(fields: seq<Field>): string {
    if fields == [] then [] else Line(fields[0]) + Lines(fields[1..])
  }

  // ---- parse_tag ----

  function Truncate(s: string, max: nat): string
    requires max > 0
  {
    if |s| >= max then s[..max - 1] else s
  }

  function Trim(s: string): string {
    if s != [] && Blank(s[|s| - 1]) then Trim(s[..|s| - 1]) else s
  }

  /** The value that starts here, after the colon. */
  function ValueAt(s: string, max: nat): Option<string>
    requires max > 0
  {
    if s != [] && s[0] == '\'' then
      var end := IndexOf(s[1..], '\'');
      if end == |s| - 1 then None else Some(Truncate(s[1..][..end], max))
    else
      var end := IndexOf(s, '@');
      if end == |s| then None else Some(Trim(Truncate(s[..end], max)))
  }

  /** parse_tag into a buffer of max bytes. */
  function ParseTag(s: string, tag: string, max: nat): Option<string>
    requires max > 0
  {
    var at := Find(s, Key(tag));
    if at == -1 then None else ValueAt(s[at + |Key(tag)|..], max)
  }

  /** parse_tag_bool. */
  predicate ParseBool(s: string, tag: string) {
    ParseTag(s, tag, 16) in {Some("True"), Some("true"), Some("1")}
  }

  /** parse_tag_uint64. Characters that are not digits are skipped in a decimal number and count as 0 in a
      hexadecimal one; 64-bit wrap-around is kept. */
  function ParseNumber(s: string, tag: string): (n: nat)
    ensures n < 0x1_0000_0000_0000_0000
  {
    match ParseTag(s, tag, 32)
    case None => 0
    case Some(v) =>
      if |v| >= 2 && v[0] == '0' && (v[1] == 'x' || v[1] == 'X') then Value(v[2..], 16) % 0x1_0000_0000_0000_0000
      else DecimalValue(v) % 0x1_0000_0000_0000_0000
  }

  function DecimalValue(s: string): nat {
    if s == [] then 0
    else if IsDigit(s[|s| - 1]) then DecimalValue(s[..|s| - 1]) * 10 + DigitValue(s[|s| - 1])
    else DecimalValue(s[..|s| - 1])
  }

  lemma {:induction false} DecimalValueIs(s: string)
    requires forall i :: 0 <= i < |s| ==> IsDigit(s[i])
    ensures DecimalValue(s) == Value(s, 10)
  {
    if s != [] { DecimalValueIs(s[..|s| - 1]); }
  }

  /** The digits of a text, in their order. */
  ghost function OnlyDigits(s: string): string {
    if s == [] then [] else OnlyDigits(s[..|s| - 1]) + if '0' <= s[|s| - 1] <= '9' then [s[|s| - 1]] else []
  }

  /** What is not a digit makes no difference to a decimal number. */
  lemma {:induction false} DecimalSkips(s: string)
    ensures DecimalValue(s) == Value(OnlyDigits(s), 10)
  {
    if s != [] {
      var digits := OnlyDigits(s[..|s| - 1]);
      DecimalSkips(s[..|s| - 1]);
      if IsDigit(s[|s| - 1]) {
        assert OnlyDigits(s)[..|digits|] == digits;
      } else {
        assert OnlyDigits(s) == digits;
      }
    }
  }

  /** Spaces and tabs are taken off the end, all of them and nothing else. */
  lemma {:induction false} TrimIs(s: string)
    ensures Trim(s) <= s && (Trim(s) == [] || Trim(s)[|Trim(s)| - 1] !in {' ', '\t'})
    ensures forall i :: |Trim(s)| <= i < |s| ==> s[i] in {' ', '\t'}
  {
    if s != [] && Blank(s[|s| - 1]) {
      TrimIs(s[..|s| - 1]);
    }
  }

  // ---- a tag is found in its own line ----

  lemma KeyChars(tag: string)
    requires TagName(tag)
    ensures Key(tag)[0] == '@' && Key(tag)[1] == tag[0] && |Key(tag)| == |tag| + 2 && Key(tag)[|tag| + 1] == ':'
    ensures forall i :: 0 <= i < |tag| ==> Key(tag)[1 + i] == tag[i]
  {
  }

  /** The only '@' of a line are its first character and the one before its end. */
  lemma AtSigns(f: Field, k: nat)
    requires FieldOk(f) && 0 < k < |Line(f)| - 2
    ensures Line(f)[k] != '@'
  {
    var n, b := |Key(f.tag)|, Body(f);
    KeyChars(f.tag);
    if k < n {
      assert Line(f)[k] == Key(f.tag)[k];
      assert k <= |f.tag| ==> Key(f.tag)[1 + (k - 1)] == f.tag[k - 1] && TagChar(f.tag[k - 1]);
    } else {
      assert Line(f)[k] == b[k - n];
      assert f.quoted && 0 < k - n < |b| - 1 ==> b[k - n] == f.value[k - n - 1];
    }
  }

  /** Neither of two different keys is the start of the other. */
  lemma KeysDiffer(a: string, b: string) returns (i: nat)
    requires TagName(a) && TagName(b) && a != b
    ensures i < |Key(a)| && i < |Key(b)| && Key(a)[i] != Key(b)[i]
  {
    KeyChars(a);
    KeyChars(b);
    if k :| 0 <= k < |a| && k < |b| && a[k] != b[k] {
      i := k + 1;
    } else {
      i := (if |a| < |b| then |a| else |b|) + 1;
      assert |a| == |b| ==> a == b;
      assert |a| < |b| ==> TagChar(b[|a|]) && Key(b)[1 + |a|] == b[|a|];
      assert |b| < |a| ==> TagChar(a[|b|]) && Key(a)[1 + |b|] == a[|b|];
    }
  }

  lemma PrefixChar(s: string, k: nat, p: string, i: nat)
    requires i < |p|
    ensures PrefixAt(s, k, p) ==> s[k + i] == p[i]
  {
    assert PrefixAt(s, k, p) ==> s[k..k + |p|][i] == s[k + i];
  }

  lemma NotInLine(f: Field, rest: string, tag: string, k: nat)
    requires FieldOk(f) && TagName(tag) && tag != f.tag
    requires k < |Line(f)|
    ensures !PrefixAt(Line(f) + rest, k, Key(tag))
  {
    var s := Line(f) + rest;
    KeyChars(tag);
    PrefixChar(s, k, Key(tag), 0);
    PrefixChar(s, k, Key(tag), 1);
    if k == 0 {
      var i := KeysDiffer(f.tag, tag);
      PrefixChar(s, 0, Key(tag), i);
      assert s[i] == Key(f.tag)[i];
    } else if k < |Line(f)| - 2 {
      AtSigns(f, k);
    } else {
      assert TagChar(tag[0]);
      assert Line(f)[|Line(f)| - 1] == '\n';
    }
  }

  lemma ShiftPrefix(a: string, b: string, p: string, k: nat)
    ensures PrefixAt(a + b, |a| + k, p) <==> PrefixAt(b, k, p)
  {
    if k + |p| <= |b| {
      assert (a + b)[|a| + k..|a| + k + |p|] == b[k..k + |p|];
    }
  }

  lemma FindAfter(a: string, b: string, p: string)
    requires forall k :: 0 <= k < |a| ==> !PrefixAt(a + b, k, p)
    requires Find(b, p) != -1
    ensures Find(a + b, p) == |a| + Find(b, p)
  {
    hide Find;
    var s, r := a + b, Find(b, p);
    ShiftPrefix(a, b, p, r);
    forall k | 0 <= k < |a| + r ensures !PrefixAt(s, k, p) {
      if k >= |a| { ShiftPrefix(a, b, p, k - |a|); }
    }
    FindIs(s, p, |a| + r);
  }

  /** Tags are not repeated. */
  ghost predicate Distinct(fields: seq<Field>) {
    forall i, j :: 0 <= i < j < |fields| ==> fields[i].tag != fields[j].tag
  }

  ghost predicate AllOk(fields: seq<Field>) {
    forall i :: 0 <= i < |fields| ==> FieldOk(fields[i])
  }

  lemma FieldsTail(fields: seq<Field>, i: nat)
    requires AllOk(fields) && Distinct(fields) && 0 < i < |fields|
    ensures AllOk(fields[1..]) && Distinct(fields[1..]) && fields[1..][i - 1] == fields[i] && fields[0].tag != fields[i].tag
    ensures FieldOk(fields[0]) && FieldOk(fields[i])
  {
  }

  lemma {:induction false} LinesSplit(fields: seq<Field>, i: nat)
    requires i < |fields|
    ensures Lines(fields) == Lines(fields[..i]) + (Line(fields[i]) + Lines(fields[i + 1..]))
    decreases i
  {
    hide Line;
    if i == 0 {
      assert fields[..0] == [];
    } else {
      LinesSplit(fields[1..], i - 1);
      assert fields[1..][..i - 1] == fields[..i][1..] && fields[1..][i..] == fields[i + 1..];
      assert fields[1..][i - 1] == fields[i];
      Assoc(Line(fields[0]), Lines(fields[..i][1..]), Line(fields[i]) + Lines(fields[i + 1..]));
    }
  }

  lemma Assoc(a: string, b: string, c: string)
    ensures a + (b + c) == (a + b) + c
  {
  }

  lemma KeyFirst(f: Field, rest: string)
    ensures Find(Line(f) + rest, Key(f.tag)) == 0
  {
    assert (Line(f) + rest)[..|Key(f.tag)|] == Key(f.tag);
  }

  lemma {:induction false} FindLine(fields: seq<Field>, rest: string, i: nat)
    requires i < |fields| && AllOk(fields) && Distinct(fields)
    ensures Find(Lines(fields) + rest, Key(fields[i].tag)) == |Lines(fields[..i])|
    decreases i
  {
    hide Line, Find, Key, FieldOk, PrefixAt, AllOk, Distinct;
    var f, key := fields[0], Key(fields[i].tag);
    var b := Lines(fields[1..]) + rest;
    Assoc(Line(f), Lines(fields[1..]), rest);
    if i == 0 {
      KeyFirst(f, b);
      assert fields[..0] == [];
    } else {
      FieldsTail(fields, i);
      FieldTagName(fields[i]);
      forall k | 0 <= k < |Line(f)| ensures !PrefixAt(Line(f) + b, k, key) {
        NotInLine(f, b, fields[i].tag, k);
      }
      FindLine(fields[1..], rest, i - 1);
      FindAfter(Line(f), b, key);
      assert fields[..i][0] == f && fields[..i][1..] == fields[1..][..i - 1];
    }
  }

  lemma FieldTagName(f: Field)
    requires FieldOk(f)
    ensures TagName(f.tag)
  {
  }

  lemma Unquote(v: string, rest: string)
    ensures ("'" + v + "'" + rest)[1..] == v + ("'" + rest)
  {
  }

  lemma ValueOfLine(f: Field, rest: string, max: nat)
    requires FieldOk(f) && |f.value| < max
    ensures |Key(f.tag)| <= |Line(f)|
    ensures ValueAt((Line(f) + rest)[|Key(f.tag)|..], max) == Some(f.value)
  {
    var s := (Line(f) + rest)[|Key(f.tag)|..];
    assert s == Body(f) + "@\n" + rest;
    if f.quoted {
      Unquote(f.value, "@\n" + rest);
      assert s == "'" + f.value + "'" + ("@\n" + rest);
      IndexOfIs(s[1..], '\'', |f.value|);
      assert s[1..][..|f.value|] == f.value;
    } else {
      IndexOfIs(s, '@', |f.value|);
      assert s[..|f.value|] == f.value;
    }
  }

  /** parse_tag returns what was printed, wherever the line stands and whatever follows the lines. */
  lemma ParsePrinted(fields: seq<Field>, rest: string, i: nat, max: nat)
    requires i < |fields| && AllOk(fields) && Distinct(fields) && |fields[i].value| < max
    ensures ParseTag(Lines(fields) + rest, fields[i].tag, max) == Some(fields[i].value)
  {
    hide Line, Find, Key, FieldOk, ValueAt, Lines;
    var s, f := Lines(fields) + rest, fields[i];
    FindLine(fields, rest, i);
    LinesSplit(fields, i);
    var before, tail := Lines(fields[..i]), Lines(fields[i + 1..]) + rest;
    ValueOfLine(f, tail, max);
    SkipTo(before, Line(f), Lines(fields[i + 1..]), rest, |Key(f.tag)|);
  }

  lemma SkipTo(a: string, b: string, c: string, d: string, n: nat)
    requires n <= |b|
    ensures |a| + n <= |(a + (b + c)) + d| && ((a + (b + c)) + d)[|a| + n..] == (b + (c + d))[n..]
  {
  }

  /** Of the short words just three are true. */
  lemma BoolWords(f: Field, rest: string)
    requires FieldOk(f) && |f.value| < 16
    ensures ParseBool(Line(f) + rest, f.tag) <==> f.value == "True" || f.value == "true" || f.value == "1"
  {
    hide Find, ValueAt, Line, Key, FieldOk;
    KeyFirst(f, rest);
    ValueOfLine(f, rest, 16);
  }

  /** A short value that starts with 0x or 0X is hexadecimal. */
  lemma HexRead(f: Field, digits: string, rest: string)
    requires FieldOk(f) && |f.value| < 32 && (f.value == "0x" + digits || f.value == "0X" + digits)
    ensures ParseNumber(Line(f) + rest, f.tag) == Value(digits, 16) % 0x1_0000_0000_0000_0000
  {
    hide Find, ValueAt, Line, Key, FieldOk, Value, DecimalValue;
    KeyFirst(f, rest);
    ValueOfLine(f, rest, 32);
    assert f.value[2..] == digits;
  }
}
