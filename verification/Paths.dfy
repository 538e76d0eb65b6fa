/** Paths inside a volume: their components, and the split at the last slash. */
module Paths {
  import opened Text

  /** The names that minimafs_get_folder_block walks along: maximal pieces without a slash. */
  function Components(s: string): seq<string>
    decreases |s|
  {
    if s == [] then []
    else if s[0] == '/' then Components(s[1..])
    else
      var n := IndexOf(s, '/');
      [s[..n]] + Components(s[n..])
  }

  /** strrchr(s, '/'), as the length of what stands before the slash; -1 without one. */
  function LastSlash(s: string): (i: int)
    ensures -1 <= i < |s| && (i >= 0 ==> s[i] == '/')
    ensures forall k :: i < k < |s| ==> s[k] != '/'
  {
    if s == [] then -1 else if s[|s| - 1] == '/' then |s| - 1 else LastSlash(s[..|s| - 1])
  }

  /** minimafs_split_local_path. */
  function Parent(s: string): string { if LastSlash(s) == -1 then [] else s[..LastSlash(s)] }

  function Name(s: string): string { s[LastSlash(s) + 1..] }

  lemma {:induction false} ComponentsJoin(a: string, b: string)
    requires (forall k :: 0 <= k < |b| ==> b[k] != '/')
    ensures Components(a + "/" + b) == Components(a) + (if b == [] then [] else [b])
    decreases |a|
  {
    var s := a + "/" + b;
    if a == [] {
      assert s[1..] == b;
      ComponentsName(b);
    } else if a[0] == '/' {
      assert s[1..] == a[1..] + "/" + b;
      ComponentsJoin(a[1..], b);
    } else {
      var n := IndexOf(a, '/');
      FirstSlash(a, b);
      assert s[..n] == a[..n] && s[n..] == a[n..] + "/" + b;
      ComponentsJoin(a[n..], b);
    }
  }

  lemma FirstSlash(a: string, b: string)
    ensures IndexOf(a + "/" + b, '/') == IndexOf(a, '/')
  {
    var s, n := a + "/" + b, IndexOf(a, '/');
    assert s[n] == '/' && forall k :: 0 <= k < n ==> s[k] == a[k];
    IndexOfIs(s, '/', n);
  }

  lemma ComponentsName(b: string)
    requires forall k :: 0 <= k < |b| ==> b[k] != '/'
    ensures Components(b) == if b == [] then [] else [b]
  {
    if b != [] {
      assert IndexOf(b, '/') == |b|;
      assert b[..|b|] == b && b[|b|..] == [];
    }
  }

  /** A path leads through its parent to its name. */
  lemma ComponentsSplit(s: string)
    ensures Components(s) == Components(Parent(s)) + (if Name(s) == [] then [] else [Name(s)])
  {
    hide Components;
    var i := LastSlash(s);
    if i == -1 {
      ComponentsName(s);
      ComponentsName([]);
    } else {
      assert s == Parent(s) + "/" + Name(s);
      ComponentsJoin(Parent(s), Name(s));
    }
  }
}
