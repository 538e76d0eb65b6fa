/** The LZSS encoder of the host tool mkpkg.py: candidates are found in a dictionary from three-byte
    prefixes to their positions. It writes what exhaustive search, and hence the kernel's encoder, writes. */
module MkpkgEncoder {
  import opened Lzss
  import opened Words
  import opened LzssEncoder

  ghost predicate StartsWith(data: seq<byte>, p: nat, key: seq<byte>) {
    p + 3 <= |data| && data[p..p + 3] == key
  }

  /** The positions below n where key starts, in increasing order. */
  ghost function Positions(data: seq<byte>, key: seq<byte>, n: nat): (r: seq<nat>)
    ensures forall i :: 0 <= i < |r| ==> r[i] < n && StartsWith(data, r[i], key)
    ensures forall i, j :: 0 <= i < j < |r| ==> r[i] < r[j]
  {
    if n == 0 then []
    else if StartsWith(data, n - 1, key) then Positions(data, key, n - 1) + [n - 1]
    else Positions(data, key, n - 1)
  }

  lemma {:induction false} PositionsAll(data: seq<byte>, key: seq<byte>, n: nat, p: nat)
    requires p < n && StartsWith(data, p, key)
    ensures p in Positions(data, key, n)
  {
    if p < n - 1 { PositionsAll(data, key, n - 1, p); }
  }

  type Chains = map<seq<byte>, seq<nat>>

  function Lookup(chains: Chains, key: seq<byte>): seq<nat> {
    if key in chains then chains[key] else []
  }

  ghost predicate Indexed(data: seq<byte>, chains: Chains, n: nat) {
    forall key :: Lookup(chains, key) == Positions(data, key, n)
  }

  lemma IndexOne(data: seq<byte>, chains: Chains, n: nat)
    requires Indexed(data, chains, n) && n + 3 <= |data|
    ensures Indexed(data, chains[data[n..n + 3] := Lookup(chains, data[n..n + 3]) + [n]], n + 1)
  {
    var k := data[n..n + 3];
    var chains' := chains[k := Lookup(chains, k) + [n]];
    forall key ensures Lookup(chains', key) == Positions(data, key, n + 1) {
      assert Lookup(chains, key) == Positions(data, key, n);
    }
  }

  /** bisect_left: the first place where `limit` could be inserted in order. */
  method BisectLeft(a: seq<nat>, limit: nat) returns (lo: nat)
    requires forall i, j :: 0 <= i < j < |a| ==> a[i] < a[j]
    ensures lo <= |a|
    ensures forall i :: 0 <= i < lo ==> a[i] < limit
    ensures forall i :: lo <= i < |a| ==> limit <= a[i]
  {
    lo := 0;
    var hi := |a|;
    while lo < hi
      invariant 0 <= lo <= hi <= |a|
      invariant forall i :: 0 <= i < lo ==> a[i] < limit
      invariant forall i :: hi <= i < |a| ==> limit <= a[i]
    {
      var mid := (lo + hi) / 2;
      if a[mid] < limit { lo := mid + 1; } else { hi := mid; }
    }
  }

  // ---- choosing among the candidates ----

  /** Of candidates[from..to], oldest first, `best` is the longest and the first of those; none was seen
      while its length is 0. */
  ghost predicate BestOf(data: seq<byte>, pos: nat, candidates: seq<nat>, from: nat, to: nat, best: Choice)
    requires pos + 2 < |data|
    requires forall i :: 0 <= i < |candidates| ==> candidates[i] < pos
    requires from <= to <= |candidates|
  {
    && best.len <= MaxLength(data, pos)
    && (if best.len == 0 then from == to
        else best.len > THRESHOLD && best.src in candidates[from..to] && best.len == MatchLength(data, best.src, pos))
    && forall i :: from <= i < to ==> NoBetter(data, pos, candidates[i], best)
  }

  /** The candidates are those of the dictionary, cut at the window. */
  ghost predicate Window(data: seq<byte>, pos: nat, candidates: seq<nat>, from: nat)
    requires pos + 2 < |data|
  {
    && candidates == Positions(data, data[pos..pos + 3], pos) && from <= |candidates|
    && (forall i :: 0 <= i < from ==> candidates[i] < WindowStart(pos))
    && (forall i :: from <= i < |candidates| ==> WindowStart(pos) <= candidates[i])
  }

  lemma UsefulIsListed(data: seq<byte>, pos: nat, candidates: seq<nat>, from: nat, src: int)
    requires pos + 2 < |data| && Window(data, pos, candidates, from) && Useful(data, src, pos)
    ensures exists i :: from <= i < |candidates| && candidates[i] == src
  {
    hide Useful, Positions;
    UsefulRepeats(data, src, pos);
    assert data[src..src + 3] == data[pos..pos + 3];
    PositionsAll(data, data[pos..pos + 3], pos, src);
  }

  /** A candidate starts with the same three bytes. */
  lemma ListedMatches(data: seq<byte>, pos: nat, src: nat)
    requires src < pos && pos + 2 < |data| && StartsWith(data, src, data[pos..pos + 3])
    ensures Matches(data, src, pos, 3) && MatchLength(data, src, pos) >= 3
    ensures MatchLengthFrom(data, src, pos, 3) == MatchLength(data, src, pos)
  {
    var a, b := data[src..src + 3], data[pos..pos + 3];
    assert a[0] == b[0] && a[1] == b[1] && a[2] == b[2];
    assert Repeats(data, src, pos, 0) && Repeats(data, src, pos, 1) && Repeats(data, src, pos, 2);
    assert MatchLengthFrom(data, src, pos, 0) == MatchLengthFrom(data, src, pos, 1);
    assert MatchLengthFrom(data, src, pos, 1) == MatchLengthFrom(data, src, pos, 2);
  }

  /** When the byte that would make the match longer differs, the candidate cannot beat the best. */
  lemma SkipIsSound(data: seq<byte>, pos: nat, src: nat, len: nat)
    requires src < pos && pos + 2 < |data| && len < MaxLength(data, pos)
    requires data[src + len] != data[pos + len]
    ensures MatchLength(data, src, pos) <= len
  {
    var m := MatchLength(data, src, pos);
    assert m > len ==> Repeats(data, src, pos, len);
  }

  /** The body of the candidate loop: a strictly longer match replaces the best. */
  method TryCandidate(data: seq<byte>, pos: nat, src: nat, best: Choice) returns (best': Choice)
    requires src < pos && pos + 2 < |data| && best.len < MaxLength(data, pos)
    requires StartsWith(data, src, data[pos..pos + 3])
    ensures best' == var len := MatchLength(data, src, pos); if len > best.len then Choice(len, src) else best
  {
    var maxLen := MaxLength(data, pos);
    if best.len > 0 && data[src + best.len] != data[pos + best.len] {
      SkipIsSound(data, pos, src, best.len);
      return best;
    }
    ListedMatches(data, pos, src);
    var length := 3;
    while length < maxLen && data[src + length] == data[pos + length]
      invariant 3 <= length <= maxLen && Matches(data, src, pos, length)
      invariant MatchLengthFrom(data, src, pos, length) == MatchLength(data, src, pos)
    {
      assert Repeats(data, src, pos, length);
      length := length + 1;
    }
    return if length > best.len then Choice(length, src) else best;
  }

  lemma BestOfStart(data: seq<byte>, pos: nat, candidates: seq<nat>, from: nat)
    requires pos + 2 < |data| && Window(data, pos, candidates, from)
    ensures BestOf(data, pos, candidates, from, from, Choice(0, 0))
  {
  }

  lemma BestOfStep(data: seq<byte>, pos: nat, candidates: seq<nat>, from: nat, i: nat, best: Choice)
    requires pos + 2 < |data| && Window(data, pos, candidates, from) && from <= i < |candidates|
    requires BestOf(data, pos, candidates, from, i, best)
    ensures var len := MatchLength(data, candidates[i], pos);
            BestOf(data, pos, candidates, from, i + 1, if len > best.len then Choice(len, candidates[i]) else best)
  {
    hide MatchLength, Positions;
    var q := candidates[i];
    var len := MatchLength(data, q, pos);
    var best' := if len > best.len then Choice(len, q) else best;
    ListedMatches(data, pos, q);
    assert candidates[from..i + 1] == candidates[from..i] + [q];
    assert best'.src in candidates[from..i + 1];
    forall j | from <= j < i + 1 ensures NoBetter(data, pos, candidates[j], best') {
      if j < i { assert NoBetter(data, pos, candidates[j], best); }
    }
  }

  lemma BestOfIsBest(data: seq<byte>, pos: nat, candidates: seq<nat>, from: nat, to: nat, best: Choice)
    requires pos + 2 < |data| && Window(data, pos, candidates, from) && from <= to <= |candidates|
    requires BestOf(data, pos, candidates, from, to, best)
    requires to == |candidates| || best.len == MaxLength(data, pos)
    ensures IsBest(data, pos, best)
    ensures best.len > THRESHOLD ==> Useful(data, best.src, pos) && best.len == MatchLength(data, best.src, pos)
  {
    forall src | Useful(data, src, pos) ensures best.len > THRESHOLD && NoBetter(data, pos, src, best) {
      UsefulIsListed(data, pos, candidates, from, src);
      var i :| from <= i < |candidates| && candidates[i] == src;
      if to <= i {
        var k :| from <= k < to && candidates[k] == best.src;
        assert candidates[k] < candidates[i];
      }
    }
  }

  /** The candidate loop of mkpkg.py, oldest first, left early when nothing can be longer. */
  method Search(data: seq<byte>, chains: Chains, pos: nat) returns (best: Choice)
    requires pos < |data| && (pos + 2 < |data| ==> Indexed(data, chains, pos))
    ensures best.len <= F && IsBest(data, pos, best)
    ensures best.len > THRESHOLD ==> Useful(data, best.src, pos) && best.len == MatchLength(data, best.src, pos)
  {
    hide Positions, MatchLength, IsBest, Useful, BestOf;
    best := Choice(0, 0);
    var maxLen := MaxLength(data, pos);
    if maxLen < THRESHOLD + 1 {
      NoRoom(data, pos);
      return;
    }
    var candidates := Lookup(chains, data[pos..pos + 3]);
    assert candidates == Positions(data, data[pos..pos + 3], pos);
    var from := BisectLeft(candidates, WindowStart(pos));
    assert Window(data, pos, candidates, from);
    BestOfStart(data, pos, candidates, from);
    var i := from;
    while i < |candidates| && best.len < maxLen
      invariant from <= i <= |candidates| && best.len <= maxLen
      invariant BestOf(data, pos, candidates, from, i, best)
    {
      BestOfStep(data, pos, candidates, from, i, best);
      best := TryCandidate(data, pos, candidates[i], best);
      i := i + 1;
    }
    BestOfIsBest(data, pos, candidates, from, i, best);
  }

  /** Records positions up to pos, as far as three bytes are left. */
  method IndexUpTo(data: seq<byte>, chains: Chains, indexed: nat, pos: nat) returns (chains': Chains, indexed': nat)
    requires indexed <= pos <= |data| && Indexed(data, chains, indexed)
    ensures indexed' <= pos && Indexed(data, chains', indexed')
    ensures indexed' == pos || indexed' + 3 > |data|
  {
    chains', indexed' := chains, indexed;
    while indexed' < pos && indexed' + 3 <= |data|
      invariant indexed' <= pos && Indexed(data, chains', indexed')
    {
      IndexOne(data, chains', indexed');
      var key := data[indexed'..indexed' + 3];
      chains' := chains'[key := Lookup(chains', key) + [indexed']];
      indexed' := indexed' + 1;
    }
  }

  lemma IndexNothing(data: seq<byte>)
    ensures Indexed(data, map[], 0)
  {
  }

  /** The symbol for a choice is written. */
  method EncodeAt(data: seq<byte>, e: Emitter, pos: nat, best: Choice) returns (p: nat)
    requires pos < |data| && best.len <= F && IsBestTried(data, pos, N, best) && e.Valid() && Encoded(data, e.syms, pos, N)
    modifies e
    ensures pos < p <= |data| && e.Valid() && Encoded(data, e.syms, p, N)
  {
    hide Emitting, Encoded, IsBestTried, RingPosition;
    Chosen(data, e.syms, pos, best, N);
    if best.len > THRESHOLD {
      e.PutMatch(RingPosition(best.src), best.len);
      p := pos + best.len;
    } else {
      e.PutLiteral(data[pos]);
      p := pos + 1;
    }
  }

  /** lzss_compress of mkpkg.py. */
  method Compress(data: seq<byte>) returns (out: seq<byte>)
    ensures out == Serialize(Greedy(data, 0))
  {
    EncodedStart(data, N);
    hide Emitting, Spells, Greedy, Limited, Serialize, Encoded, Useful, IsBest, IsBestTried, MatchLength, RingPosition, Indexed;
    var e := new Emitter();
    var chains: Chains := map[];
    var indexed: nat, pos: nat := 0, 0;
    IndexNothing(data);
    while pos < |data|
      invariant indexed <= pos <= |data| && Indexed(data, chains, indexed)
      invariant e.Valid() && Encoded(data, e.syms, pos, N)
    {
      chains, indexed := IndexUpTo(data, chains, indexed, pos);
      var best := Search(data, chains, pos);
      AllTried(data, pos, N, best);
      pos := EncodeAt(data, e, pos, best);
    }
    EncodedEnd(data, e.syms, N);
    LimitedIsGreedy(data, 0, N);
    e.Finish();
    out := e.out;
  }
}
