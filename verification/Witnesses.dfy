/** Concrete inputs for which an operation does not do what it is for. */
module Witnesses {
  import opened Text
  import opened Tags
  import opened FileHeader
  import opened FileLength
  import opened FolderDesc
  import opened Files
  import opened Directory
  import opened Paths
  import opened Effects

  function Letters(n: nat): (s: string)
    ensures |s| == n && forall i :: 0 <= i < n ==> s[i] == 'a'
  {
    seq(n, i => 'a')
  }

  // ---- names that are never found again ----

  lemma NamesShort(t: Tree, p: nat)
    requires FoldersOk(t) && p in t.folders
    ensures forall k :: 0 <= k < |t.folders[p].entries| ==> |t.folders[p].entries[k].name| < MAX_NAME
  {
    hide Named;
    forall k | 0 <= k < |t.folders[p].entries| ensures |t.folders[p].entries[k].name| < MAX_NAME {
      assert EntryOk(t.folders[p].entries[k]);
    }
  }

  /** A name of 64 bytes and more is in no folder. */
  lemma LongNameMissing(t: Tree, total: nat, path: string)
    requires WellFormed(t, total) && |Name(path)| >= MAX_NAME
    ensures !Exists(t, path, false) && !Exists(t, path, true)
  {
    hide Name, Lead, SlotsOk, Apart, FoldersOk;
    var r := Target(t, path);
    if r.Some? { NamesShort(t, r.value.0); }
  }

  lemma LettersPath(n: nat)
    requires n < MAX_PATH
    ensures Name(Letters(n)) == Letters(n) && PathOk(Letters(n))
  {
    hide LastSlash, Letters;
    NoSlash(Letters(n));
  }

  lemma NoSlash(s: string)
    requires forall i :: 0 <= i < |s| ==> s[i] != '/'
    ensures LastSlash(s) == -1 && Name(s) == s && Parent(s) == []
  {
    hide LastSlash;
    assert s[0..] == s;
  }

  /** Such as this one. */
  lemma LongNameAt(t: Tree, total: nat)
    requires WellFormed(t, total)
    ensures PathOk(Letters(64)) && !Exists(t, Letters(64), false)
  {
    hide WellFormed, PathOk, Exists, Name, Letters;
    LettersPath(64);
    LongNameMissing(t, total, Letters(64));
  }

  // ---- a file whose FILELEN falls short ----

  /** A path of nested folders: a slash after every 59 letters, counted from the end. */
  ghost function Nested(n: nat): (s: string)
    ensures |s| == n && forall i :: 0 <= i < n ==> s[i] == if (n - i) % 60 == 0 then '/' else 'a'
  {
    seq(n, i requires 0 <= i < n => if (n - i) % 60 == 0 then '/' else 'a')
  }

  /** A path with which the header of a new file is 900 bytes long without the digits of FILELEN. */
  ghost function UnluckyPath(filetype: string, fileformat: string, now: string): string {
    var base := Base(NewMeta("b", filetype, fileformat, now, false).(dataLength := 92));
    Nested(if base <= 900 then 900 - base else 0) + "/b"
  }

  ghost predicate SlashIn(s: string, i: nat, n: nat) { exists j :: i <= j < i + n && j < |s| && s[j] == '/' }

  /** When every n characters there is a slash, names are shorter than that. */
  lemma {:induction false} NamesBetween(s: string, n: nat)
    requires n > 0 && forall i :: 0 <= i && i + n <= |s| ==> SlashIn(s, i, n)
    ensures forall k :: 0 <= k < |Components(s)| ==> |Components(s)[k]| < n
    decreases |s|
  {
    if s != [] {
      var m := if s[0] == '/' then 1 else IndexOf(s, '/');
      if |s| >= n { assert SlashIn(s, 0, n); }
      var rest := s[m..];
      forall i | 0 <= i && i + n <= |rest| ensures SlashIn(rest, i, n) {
        assert SlashIn(s, i + m, n);
        var j :| i + m <= j < i + m + n && j < |s| && s[j] == '/';
        assert rest[j - m] == '/';
      }
      NamesBetween(rest, n);
    }
  }

  lemma NestedNames(n: nat)
    ensures var path := Nested(n) + "/b";
            Name(path) == "b" && Parent(path) == Nested(n) && forall k :: 0 <= k < |Components(path)| ==> |Components(path)[k]| < 60
  {
    hide LastSlash, Components, Nested;
    var path := Nested(n) + "/b";
    assert path[n] == '/' && path[n + 1] == 'b';
    assert LastSlash(path) == n;
    assert path[n + 1..] == "b" && path[..n] == Nested(n);
    forall i | 0 <= i && i + 60 <= |path| ensures SlashIn(path, i, 60) {
      var j := if i + 60 <= n then i + (n - i) % 60 else n;
      if i + 60 <= n { assert (n - j) % 60 == 0 && path[j] == Nested(n)[j]; }
      assert path[j] == '/';
    }
    NamesBetween(path, 60);
  }

  lemma CleanLetter()
    ensures Clean("b") && Clean([])
  {
  }

  lemma NestedOk(n: nat)
    requires n < 1000
    ensures PathOk(Nested(n) + "/b") && Clean(Nested(n))
  {
    hide Nested;
  }

  /** In folders with short names, a file of 92 bytes is written with a recorded length that is one less than what is
      laid out. */
  lemma UnluckyFile(filetype: string, fileformat: string, now: string)
    requires BareOk(filetype, 64) && BareOk(fileformat, 16) && Date(now)
    ensures var path := UnluckyPath(filetype, fileformat, now);
            var m := NewMeta(path, filetype, fileformat, now, false);
            && FileArgs(path, filetype, fileformat, now)
            && (forall k :: 0 <= k < |Components(path)| ==> |Components(path)[k]| < 60)
            && Base(m.(dataLength := 92)) == 900 && FileSize(m, 92) == SettledMeta(m, 92).fileLength + 1
  {
    hide PrintHeader, Decimal, Nested, Name, Parent, Components, Clean, PathOk;
    var path := UnluckyPath(filetype, fileformat, now);
    NoSlash("b");
    var m0 := NewMeta("b", filetype, fileformat, now, false).(dataLength := 92);
    CleanLetter();
    ShortHeader(m0);
    BaseAtLeast(m0);
    var n := 900 - Base(m0);
    NestedNames(n);
    NestedOk(n);
    ParentLength(m0, Nested(n));
    assert NewMeta(path, filetype, fileformat, now, false).(dataLength := 92, fileLength := 0) == m0.(parentFolder := Nested(n), fileLength := 0);
    DoesNotSettle(900);
    GapAtMostOne(900, 92);
  }
}
