/** The LZSS encoder of the kernel: a hash-chain match finder whose links live in a ring of N entries.
    It is compared with an exhaustive search of the window. */
module LzssEncoder {
  import opened Lzss
  import opened Words

  const HASH_SIZE := 4096

  // ---- the exhaustive search ----

  function MaxLength(data: seq<byte>, pos: nat): (m: nat)
    requires pos <= |data|
    ensures m <= F && pos + m <= |data| && (m == F || pos + m == |data|)
  {
    if |data| - pos < F then |data| - pos else F
  }

  function WindowStart(pos: nat): nat {
    if pos > N then pos - N else 0
  }

  /** The window is what the decoder's ring still holds. */
  lemma WindowIs(pos: nat, src: nat)
    ensures WindowStart(pos) <= src <==> pos <= src + N
  {
  }

  /** How far the data at pos repeats the data at src, at most MaxLength. */
  ghost function MatchLength(data: seq<byte>, src: nat, pos: nat): (len: nat)
    requires src < pos <= |data|
    ensures len <= MaxLength(data, pos) && Matches(data, src, pos, len)
    ensures len < MaxLength(data, pos) ==> data[src + len] != data[pos + len]
  {
    MatchLengthFrom(data, src, pos, 0)
  }

  ghost function MatchLengthFrom(data: seq<byte>, src: nat, pos: nat, k: nat): (len: nat)
    requires src < pos <= |data| && k <= MaxLength(data, pos)
    requires Matches(data, src, pos, k)
    ensures k <= len <= MaxLength(data, pos) && Matches(data, src, pos, len)
    ensures len < MaxLength(data, pos) ==> data[src + len] != data[pos + len]
    decreases MaxLength(data, pos) - k
  {
    if k < MaxLength(data, pos) && data[src + k] == data[pos + k] then
      assert Repeats(data, src, pos, k);
      MatchLengthFrom(data, src, pos, k + 1)
    else k
  }

  /** A match long enough to be worth encoding. */
  ghost predicate Useful(data: seq<byte>, src: int, pos: nat)
    requires pos <= |data|
  {
    0 <= src && WindowStart(pos) <= src < pos && MatchLength(data, src, pos) > THRESHOLD
  }

  datatype Choice = Choice(len: nat, src: nat)

  /** The whole window scanned from its oldest byte, keeping the first of the longest matches. */
  ghost function Scan(data: seq<byte>, pos: nat, src: nat, best: Choice): (c: Choice)
    requires src <= pos <= |data| && best.len <= F
    ensures c.len <= F
    decreases pos - src
  {
    if src == pos then best
    else Scan(data, pos, src + 1,
              if MatchLength(data, src, pos) > best.len then Choice(MatchLength(data, src, pos), src) else best)
  }

  ghost function Exhaustive(data: seq<byte>, pos: nat): (c: Choice)
    requires pos <= |data|
    ensures c.len <= F
  {
    Scan(data, pos, WindowStart(pos), Choice(0, 0))
  }

  /** The longest useful match, and the oldest of those; a length of at most THRESHOLD means there is none. */
  ghost predicate IsBest(data: seq<byte>, pos: nat, c: Choice)
    requires pos <= |data|
  {
    if c.len <= THRESHOLD then forall src :: !Useful(data, src, pos)
    else
      && Useful(data, c.src, pos) && c.len == MatchLength(data, c.src, pos)
      && forall src :: Useful(data, src, pos) ==>
           MatchLength(data, src, pos) <= c.len && (MatchLength(data, src, pos) == c.len ==> c.src <= src)
  }

  lemma {:induction false} ScanIsBest(data: seq<byte>, pos: nat, src: nat, best: Choice)
    requires WindowStart(pos) <= src <= pos <= |data| && best.len <= F
    requires best.len == 0 || (WindowStart(pos) <= best.src < src && best.len == MatchLength(data, best.src, pos))
    requires forall s :: WindowStart(pos) <= s < src ==> MatchLength(data, s, pos) <= best.len
    requires forall s :: WindowStart(pos) <= s < best.src && best.len > 0 ==> MatchLength(data, s, pos) < best.len
    ensures IsBest(data, pos, Scan(data, pos, src, best))
    decreases pos - src
  {
    if src < pos {
      var m := MatchLength(data, src, pos);
      ScanIsBest(data, pos, src + 1, if m > best.len then Choice(m, src) else best);
    }
  }

  lemma ExhaustiveIsBest(data: seq<byte>, pos: nat)
    requires pos <= |data|
    ensures IsBest(data, pos, Exhaustive(data, pos))
  {
    ScanIsBest(data, pos, WindowStart(pos), Choice(0, 0));
  }

  /** The symbol that a choice leads to. */
  ghost function SymbolFor(data: seq<byte>, pos: nat, c: Choice): Symbol
    requires pos < |data| && c.len <= F
  {
    if c.len > THRESHOLD then Match(RingPosition(c.src), c.len) else Literal(data[pos])
  }

  /** Two best choices encode to the same symbol. */
  lemma BestSymbol(data: seq<byte>, pos: nat, a: Choice, b: Choice)
    requires pos < |data| && a.len <= F && b.len <= F
    requires IsBest(data, pos, a) && IsBest(data, pos, b)
    ensures SymbolFor(data, pos, a) == SymbolFor(data, pos, b)
  {
  }

  /** A best choice, or any choice that really matches, gives a symbol that stands for the data. */
  lemma SymbolSpells(data: seq<byte>, pos: nat, c: Choice)
    requires pos < |data| && c.len <= F
    requires c.len > THRESHOLD ==> Useful(data, c.src, pos) && c.len == MatchLength(data, c.src, pos)
    ensures pos + SymbolFor(data, pos, c).Length() <= |data|
    ensures Spells(data, pos, [SymbolFor(data, pos, c)], pos + SymbolFor(data, pos, c).Length())
  {
    if c.len > THRESHOLD { SourceOf(pos, c.src); }
    assert [SymbolFor(data, pos, c)][1..] == [];
  }

  /** What an encoder with exhaustive search writes from position pos on. */
  ghost function Greedy(data: seq<byte>, pos: nat): seq<Symbol>
    requires pos <= |data|
    decreases |data| - pos
  {
    if pos == |data| then [] else
      ExhaustiveIsBest(data, pos);
      var s := SymbolFor(data, pos, Exhaustive(data, pos));
      SymbolSpells(data, pos, Exhaustive(data, pos));
      [s] + Greedy(data, pos + s.Length())
  }

  // ---- groups of eight symbols under construction ----

  /** The last flagBit symbols wait in `chunk` for their flag byte; those before are written. */
  ghost predicate Emitting(syms: seq<Symbol>, out: seq<byte>, flagByte: nat, flagBit: nat, chunk: seq<byte>) {
    && flagBit <= |syms| && flagBit <= 8
    && var m := |syms| - flagBit;
       && m % 8 == 0
       && out == Serialize(syms[..m])
       && chunk == Bytes(syms[m..])
       && flagByte == Flags(syms[m..])
  }

  lemma {:induction false} FlagsSnoc(g: seq<Symbol>, s: Symbol)
    ensures Flags(g + [s]) == Flags(g) + if s.Literal? then Pow2(|g|) else 0
    decreases |g|
  {
    if g == [] {
      assert g + [s] == [s] && [s][1..] == [];
    } else {
      assert (g + [s])[1..] == g[1..] + [s];
      FlagsSnoc(g[1..], s);
    }
  }

  lemma {:induction false} SerializeConcat(a: seq<Symbol>, b: seq<Symbol>)
    requires |a| % 8 == 0
    ensures Serialize(a + b) == Serialize(a) + Serialize(b)
    decreases |a|
  {
    SerializeEmpty();
    hide Serialize, Bytes, Flags, Pow2;
    if a == [] {
      assert a + b == b;
      assert [] + Serialize(b) == Serialize(b);
    } else {
      SerializeGroup(a);
      SerializeGroup(a + b);
      assert (a + b)[..8] == a[..8] && (a + b)[8..] == a[8..] + b;
      SerializeConcat(a[8..], b);
      Reassociate([Flags(a[..8])], Bytes(a[..8]), Serialize(a[8..]), Serialize(b));
    }
  }

  lemma Reassociate(a: seq<byte>, b: seq<byte>, c: seq<byte>, d: seq<byte>)
    ensures (a + (b + c)) + d == a + (b + (c + d))
  {
  }

  lemma LiteralBytes(b: byte)
    ensures SymbolBytes(Literal(b)) == [b]
  {
  }

  lemma MatchBytes(at: nat, len: nat)
    requires at < N && THRESHOLD < len <= F
    ensures SymbolBytes(Match(at, len)) == [MatchLow(at), MatchHigh(at, len)]
  {
  }

  /** One more symbol goes into the chunk. */
  lemma EmitSymbol(syms: seq<Symbol>, out: seq<byte>, flagByte: nat, flagBit: nat, chunk: seq<byte>, s: Symbol)
    requires Emitting(syms, out, flagByte, flagBit, chunk) && flagBit < 8
    ensures Emitting(syms + [s], out, flagByte + (if s.Literal? then Pow2(flagBit) else 0), flagBit + 1, chunk + SymbolBytes(s))
  {
    var m := |syms| - flagBit;
    assert (syms + [s])[..m] == syms[..m] && (syms + [s])[m..] == syms[m..] + [s];
    BytesConcat(syms[m..], [s]);
    assert [s][1..] == [] && Bytes([s]) == SymbolBytes(s);
    FlagsSnoc(syms[m..], s);
  }

  /** A full group, or the last one, is written out. */
  lemma EmitFlush(syms: seq<Symbol>, out: seq<byte>, flagByte: nat, flagBit: nat, chunk: seq<byte>)
    requires Emitting(syms, out, flagByte, flagBit, chunk) && flagBit > 0
    ensures flagByte < 256 && out + [flagByte] + chunk == Serialize(syms)
    ensures flagBit == 8 ==> |syms| % 8 == 0
  {
    SerializeEmpty();
    hide Serialize, Bytes, Flags, Pow2;
    var m := |syms| - flagBit;
    var g := syms[m..];
    SerializeConcat(syms[..m], g);
    SerializeGroup(g);
    assert g[..flagBit] == g && g[flagBit..] == [] && syms == syms[..m] + g;
    assert [flagByte] + (chunk + []) == [flagByte] + chunk;
    assert out + ([flagByte] + chunk) == out + [flagByte] + chunk;
  }

  lemma EmitEnd(syms: seq<Symbol>, out: seq<byte>, flagByte: nat, flagBit: nat, chunk: seq<byte>)
    requires Emitting(syms, out, flagByte, flagBit, chunk)
    ensures flagBit == 0 ==> out == Serialize(syms)
  {
    assert syms[..|syms|] == syms;
  }

  lemma EmitRestart(syms: seq<Symbol>, out: seq<byte>)
    requires |syms| % 8 == 0 && out == Serialize(syms)
    ensures Emitting(syms, out, 0, 0, [])
  {
    assert syms[..|syms|] == syms && syms[|syms|..] == [];
  }

  /** The output side of both encoders: flag_byte, flag_bit, chunk and the bytes written so far. */
  class Emitter {
    var out: seq<byte>
    var flagByte: nat
    var flagBit: nat
    var chunk: seq<byte>
    ghost var syms: seq<Symbol>

    ghost predicate Valid()
      reads this
    {
      flagBit < 8 && Emitting(syms, out, flagByte, flagBit, chunk)
    }

    constructor ()
      ensures Valid() && syms == []
    {
      out, flagByte, flagBit, chunk, syms := [], 0, 0, [], [];
    }

    /** Flag bit 1. */
    method PutLiteral(b: byte)
      requires Valid()
      modifies this
      ensures Valid() && syms == old(syms) + [Literal(b)]
    {
      hide Emitting, Pow2, SymbolBytes, Serialize;
      EmitSymbol(syms, out, flagByte, flagBit, chunk, Literal(b));
      LiteralBytes(b);
      flagByte := flagByte + Pow2(flagBit);
      chunk := chunk + [b];
      syms := syms + [Literal(b)];
      EndSymbol();
    }

    /** Flag bit 0, then the low byte of the ring position, its high nibble and the length field. */
    method PutMatch(at: nat, len: nat)
      requires Valid() && at < N && THRESHOLD < len <= F
      modifies this
      ensures Valid() && syms == old(syms) + [Match(at, len)]
    {
      hide Emitting, Pow2, SymbolBytes, Serialize, MatchLow, MatchHigh;
      EmitSymbol(syms, out, flagByte, flagBit, chunk, Match(at, len));
      MatchBytes(at, len);
      chunk := chunk + [MatchLow(at), MatchHigh(at, len)];
      syms := syms + [Match(at, len)];
      EndSymbol();
    }

    method EndSymbol()
      requires flagBit < 8 && Emitting(syms, out, flagByte, flagBit + 1, chunk)
      modifies this
      ensures Valid() && syms == old(syms)
    {
      flagBit := flagBit + 1;
      if flagBit == 8 {
        EmitFlush(syms, out, flagByte, flagBit, chunk);
        out := out + [flagByte] + chunk;
        EmitRestart(syms, out);
        flagByte, flagBit, chunk := 0, 0, [];
      }
    }

    /** Writes a partial trailing group. */
    method Finish()
      requires Valid()
      modifies this
      ensures syms == old(syms) && out == Serialize(syms)
    {
      EmitEnd(syms, out, flagByte, flagBit, chunk);
      if flagBit > 0 {
        EmitFlush(syms, out, flagByte, flagBit, chunk);
        out := out + [flagByte] + chunk;
      }
    }
  }

  // ---- the hash chains ----

  function Hash(data: seq<byte>, p: nat): (h: nat)
    requires p + 2 < |data|
    ensures h < HASH_SIZE
  {
    var v := data[p] as int + data[p + 1] as int * 0x100 + data[p + 2] as int * 0x1_0000;
    v * 2654435761 % 0x1_0000_0000 / 0x10_0000
  }

  /** The hash is the upper twelve bits of a 32-bit product of the three bytes, lowest first. */
  lemma HashBits(data: seq<byte>, p: nat)
    requires p + 2 < |data|
    ensures var product := (data[p] as int + 256 * data[p + 1] as int + 65536 * data[p + 2] as int) * 2654435761 % 0x1_0000_0000;
            Hash(data, p) * 0x10_0000 <= product < (Hash(data, p) + 1) * 0x10_0000
  {
  }

  /** A value that no position has. */
  const NONE := -1

  /** The newest position below p whose three bytes hash to h. */
  ghost function Newest(data: seq<byte>, h: nat, p: nat): (q: int)
    ensures NONE <= q < p
    ensures q != NONE ==> q + 2 < |data| && Hash(data, q) == h
  {
    if p == 0 then NONE
    else if p + 1 < |data| && Hash(data, p - 1) == h then p - 1
    else Newest(data, h, p - 1)
  }

  lemma {:induction false} NewestIsNewest(data: seq<byte>, h: nat, p: nat)
    ensures forall x :: Newest(data, h, p) < x < p && x + 2 < |data| ==> Hash(data, x) != h
  {
    if p > 0 { NewestIsNewest(data, h, p - 1); }
  }

  lemma NewestNext(data: seq<byte>, h: nat, p: nat)
    ensures Newest(data, h, p + 1) == if p + 2 < |data| && Hash(data, p) == h then p else Newest(data, h, p)
  {
  }

  ghost predicate Heads(data: seq<byte>, head: seq<int>, done: nat) {
    |head| == HASH_SIZE && forall h :: 0 <= h < HASH_SIZE ==> head[h] == Newest(data, h, done)
  }

  /** Links older than the window have been overwritten. */
  ghost predicate Links(data: seq<byte>, prev: seq<int>, done: nat) {
    |prev| == N && forall p :: WindowStart(done) <= p < done ==> LinkAt(data, prev, p)
  }

  ghost predicate LinkAt(data: seq<byte>, prev: seq<int>, p: nat)
    requires |prev| == N
  {
    p + 2 < |data| ==> prev[p % N] == Newest(data, Hash(data, p), p)
  }

  /** Positions below `done` can be found. */
  ghost predicate Linked(data: seq<byte>, head: seq<int>, prev: seq<int>, done: nat) {
    Heads(data, head, done) && Links(data, prev, done)
  }

  lemma HeadsNext(data: seq<byte>, head: seq<int>, p: nat)
    requires Heads(data, head, p)
    ensures Heads(data, if p + 2 < |data| then head[Hash(data, p) := p] else head, p + 1)
  {
    hide Hash, Newest;
    var head' := if p + 2 < |data| then head[Hash(data, p) := p] else head;
    forall h | 0 <= h < HASH_SIZE ensures head'[h] == Newest(data, h, p + 1) {
      NewestNext(data, h, p);
    }
  }

  lemma WindowSlots(x: nat, p: nat)
    requires p - N < x < p
    ensures x % N != p % N
  {
  }

  lemma LinkKept(data: seq<byte>, prev: seq<int>, p: nat, q: int, x: nat)
    requires |prev| == N && p - N < x < p && LinkAt(data, prev, x)
    ensures LinkAt(data, prev[p % N := q], x)
  {
    hide Hash, Newest;
    WindowSlots(x, p);
  }

  lemma LinkNew(data: seq<byte>, prev: seq<int>, p: nat, q: int)
    requires |prev| == N && (p + 2 < |data| ==> q == Newest(data, Hash(data, p), p))
    ensures LinkAt(data, prev[p % N := q], p)
    ensures p + 2 >= |data| ==> LinkAt(data, prev, p)
  {
    hide Hash, Newest;
  }

  lemma LinksNext(data: seq<byte>, prev: seq<int>, p: nat, q: int)
    requires Links(data, prev, p)
    requires p + 2 < |data| ==> q == Newest(data, Hash(data, p), p)
    ensures Links(data, if p + 2 < |data| then prev[p % N := q] else prev, p + 1)
  {
    hide LinkAt, Hash, Newest;
    var prev' := if p + 2 < |data| then prev[p % N := q] else prev;
    forall x | WindowStart(p + 1) <= x < p + 1 ensures LinkAt(data, prev', x) {
      if x < p { LinkKept(data, prev, p, q, x); } else { LinkNew(data, prev, p, q); }
    }
  }

  lemma LinkOne(data: seq<byte>, head: seq<int>, prev: seq<int>, p: nat)
    requires Linked(data, head, prev, p) && p + 2 < |data|
    ensures var h := Hash(data, p); Linked(data, head[h := p], prev[p % N := head[h]], p + 1)
  {
    hide Hash, Newest, LinkAt;
    HeadsNext(data, head, p);
    LinksNext(data, prev, p, head[Hash(data, p)]);
  }

  /** The last two positions cannot be hashed and change nothing. */
  lemma {:induction false} LinkNone(data: seq<byte>, head: seq<int>, prev: seq<int>, p: nat, q: nat)
    requires Linked(data, head, prev, p) && p + 2 >= |data| && p <= q
    ensures Linked(data, head, prev, q)
    decreases q - p
  {
    if p < q {
      HeadsNext(data, head, p);
      LinksNext(data, prev, p, NONE);
      LinkNone(data, head, prev, p + 1, q);
    }
  }

  /** lzss_insert_range. */
  method InsertRange(data: seq<byte>, head: array<int>, prev: array<int>, start: nat, count: nat)
    requires head != prev && Linked(data, head[..], prev[..], start)
    modifies head, prev
    ensures Linked(data, head[..], prev[..], start + count)
  {
    assert head.Length == HASH_SIZE && prev.Length == N;
    hide Linked, Hash;
    var p := start;
    while p < start + count
      invariant start <= p <= start + count
      invariant head.Length == HASH_SIZE && prev.Length == N && Linked(data, head[..], prev[..], p)
    {
      if p + 2 >= |data| {
        LinkNone(data, head[..], prev[..], p, start + count);
        return;
      }
      LinkOne(data, head[..], prev[..], p);
      var h := Hash(data, p);
      prev[p % N] := head[h];
      head[h] := p;
      p := p + 1;
    }
  }

  // ---- the match finder ----

  /** Position q is a candidate for pos: in the window and with the same hash. */
  ghost predicate Candidate(data: seq<byte>, pos: nat, q: int)
    requires pos + 2 < |data|
  {
    0 <= q && WindowStart(pos) <= q < pos && Hash(data, q) == Hash(data, pos)
  }

  lemma UsefulRepeats(data: seq<byte>, src: int, pos: nat)
    requires pos + 2 < |data| && Useful(data, src, pos)
    ensures 0 <= src && WindowStart(pos) <= src < pos
    ensures data[src] == data[pos] && data[src + 1] == data[pos + 1] && data[src + 2] == data[pos + 2]
  {
    hide MatchLength;
    assert Repeats(data, src, pos, 0) && Repeats(data, src, pos, 1) && Repeats(data, src, pos, 2);
  }

  /** A useful match shares its first three bytes with pos, hence the hash. */
  lemma UsefulIsCandidate(data: seq<byte>, pos: nat, src: int)
    requires pos + 2 < |data| && Useful(data, src, pos)
    ensures Candidate(data, pos, src)
  {
    hide Useful;
    UsefulRepeats(data, src, pos);
  }

  /** How many candidates there are from `from` on. */
  ghost function Newer(data: seq<byte>, pos: nat, from: nat): (n: nat)
    requires from <= pos && pos + 2 < |data|
    ensures n <= pos - from
    decreases pos - from
  {
    if from == pos then 0 else (if Candidate(data, pos, from) then 1 else 0) + Newer(data, pos, from + 1)
  }

  /** Position q is one of the newest `limit` candidates. */
  ghost predicate Tried(data: seq<byte>, pos: nat, limit: nat, q: int)
    requires pos + 2 < |data|
  {
    Candidate(data, pos, q) && Newer(data, pos, q + 1) < limit
  }

  /** The longest match at the newest `limit` candidates, and the oldest of those; a length of at most THRESHOLD
      means that none is useful. */
  ghost predicate IsBestTried(data: seq<byte>, pos: nat, limit: nat, c: Choice)
    requires pos <= |data|
  {
    if pos + 2 >= |data| then c.len <= THRESHOLD
    else if c.len <= THRESHOLD then forall q :: Tried(data, pos, limit, q) ==> MatchLength(data, q, pos) <= THRESHOLD
    else
      && Tried(data, pos, limit, c.src) && c.len == MatchLength(data, c.src, pos)
      && forall q :: Tried(data, pos, limit, q) ==>
           MatchLength(data, q, pos) <= c.len && (MatchLength(data, q, pos) == c.len ==> c.src <= q)
  }

  /** The window scanned from its oldest byte, looking at those candidates only. */
  ghost function ScanTried(data: seq<byte>, pos: nat, limit: nat, src: nat, best: Choice): (c: Choice)
    requires src <= pos && pos + 2 < |data| && best.len <= F
    ensures c.len <= F
    decreases pos - src
  {
    if src == pos then best
    else ScanTried(data, pos, limit, src + 1,
                   if Tried(data, pos, limit, src) && MatchLength(data, src, pos) > best.len
                   then Choice(MatchLength(data, src, pos), src) else best)
  }

  /** What a search of the newest `limit` candidates comes to. */
  ghost function Pick(data: seq<byte>, pos: nat, limit: nat): (c: Choice)
    requires pos <= |data|
    ensures c.len <= F
  {
    if pos + 2 >= |data| then Choice(0, 0) else ScanTried(data, pos, limit, WindowStart(pos), Choice(0, 0))
  }

  /** Among the tried positions below `src`, best is the longest and the oldest of those. */
  ghost predicate BestBelow(data: seq<byte>, pos: nat, limit: nat, src: nat, best: Choice)
    requires pos + 2 < |data| && src <= pos
  {
    && (best.len > 0 ==> Tried(data, pos, limit, best.src) && best.src < src && best.len == MatchLength(data, best.src, pos))
    && forall q :: q < src && Tried(data, pos, limit, q) ==> NoBetter(data, pos, q, best)
  }

  lemma {:induction false} ScanTriedIsBest(data: seq<byte>, pos: nat, limit: nat, src: nat, best: Choice)
    requires pos + 2 < |data| && src <= pos && best.len <= F && BestBelow(data, pos, limit, src, best)
    ensures BestBelow(data, pos, limit, pos, ScanTried(data, pos, limit, src, best))
    decreases pos - src
  {
    hide Tried, MatchLength;
    if src < pos {
      var best' := if Tried(data, pos, limit, src) && MatchLength(data, src, pos) > best.len then Choice(MatchLength(data, src, pos), src) else best;
      ScanTriedIsBest(data, pos, limit, src + 1, best');
    }
  }

  lemma PickIsBest(data: seq<byte>, pos: nat, limit: nat)
    requires pos <= |data|
    ensures IsBestTried(data, pos, limit, Pick(data, pos, limit))
  {
    if pos + 2 < |data| {
      hide Hash, MatchLength, Newer, ScanTried;
      ScanTriedIsBest(data, pos, limit, WindowStart(pos), Choice(0, 0));
      var c := Pick(data, pos, limit);
      forall q | Tried(data, pos, limit, q) ensures NoBetter(data, pos, q, c) {
        assert q < pos;
      }
    }
  }

  /** A choice that is best encodes to the symbol of the search. */
  lemma TriedSymbol(data: seq<byte>, pos: nat, limit: nat, a: Choice, b: Choice)
    requires pos < |data| && a.len <= F && b.len <= F
    requires IsBestTried(data, pos, limit, a) && IsBestTried(data, pos, limit, b)
    ensures SymbolFor(data, pos, a) == SymbolFor(data, pos, b)
  {
    hide Tried, MatchLength;
  }

  lemma TriedIsReal(data: seq<byte>, pos: nat, limit: nat, c: Choice)
    requires pos <= |data| && IsBestTried(data, pos, limit, c) && c.len > THRESHOLD
    ensures Useful(data, c.src, pos) && c.len == MatchLength(data, c.src, pos)
  {
    hide Hash, MatchLength, Newer;
  }

  lemma UsefulIsTried(data: seq<byte>, pos: nat, limit: nat, q: int)
    requires pos + 2 < |data| && limit >= N
    ensures Tried(data, pos, limit, q) ==> 0 <= q < pos
    ensures Useful(data, q, pos) <==> Tried(data, pos, limit, q) && MatchLength(data, q, pos) > THRESHOLD
  {
    hide Hash, MatchLength, Newer;
    if Useful(data, q, pos) { UsefulIsCandidate(data, pos, q); }
  }

  /** With as many candidates as the window has bytes it is the exhaustive search. */
  lemma AllTried(data: seq<byte>, pos: nat, limit: nat, c: Choice)
    requires pos <= |data| && limit >= N
    ensures IsBestTried(data, pos, limit, c) <==> IsBest(data, pos, c)
  {
    hide Useful, Tried, MatchLength;
    if pos + 2 < |data| {
      forall q
        ensures Tried(data, pos, limit, q) ==> 0 <= q < pos
        ensures Useful(data, q, pos) <==> Tried(data, pos, limit, q) && MatchLength(data, q, pos) > THRESHOLD
      {
        UsefulIsTried(data, pos, limit, q);
      }
    } else {
      NoRoom(data, pos);
    }
  }

  /** If the newest position with the same hash is in the window and its match is useful, a match is found. */
  lemma NewestIsEnough(data: seq<byte>, pos: nat, limit: nat, q: nat, c: Choice)
    requires pos + 2 < |data| && limit > 0 && IsBestTried(data, pos, limit, c)
    requires Candidate(data, pos, q) && MatchLength(data, q, pos) > THRESHOLD
    requires forall x: int :: q < x ==> !Candidate(data, pos, x)
    ensures c.len >= MatchLength(data, q, pos)
  {
    hide Hash, MatchLength;
    NoneNewer(data, pos, q + 1, pos);
    assert Tried(data, pos, limit, q);
  }

  lemma {:induction false} NoneNewer(data: seq<byte>, pos: nat, from: nat, end: nat)
    requires from <= end <= pos && pos + 2 < |data|
    requires forall x: int :: from <= x < end ==> !Candidate(data, pos, x)
    ensures Newer(data, pos, from) == Newer(data, pos, end)
    decreases end - from
  {
    hide Candidate;
    if from < end { NoneNewer(data, pos, from + 1, end); }
  }

  lemma {:induction false} NewerMono(data: seq<byte>, pos: nat, from: nat, end: nat)
    requires from <= end <= pos && pos + 2 < |data|
    ensures Newer(data, pos, from) >= Newer(data, pos, end)
    decreases end - from
  {
    hide Candidate;
    if from < end { NewerMono(data, pos, from + 1, end); }
  }

  /** `best` is the longest, then oldest, of the candidates from c on. */
  ghost predicate BestFrom(data: seq<byte>, pos: nat, c: nat, best: Choice)
    requires pos + 2 < |data|
  {
    && (best.len > 0 ==> c <= best.src && Candidate(data, pos, best.src) && best.len == MatchLength(data, best.src, pos))
    && forall q :: c <= q && Candidate(data, pos, q) ==> NoBetter(data, pos, q, best)
  }

  ghost predicate NoBetter(data: seq<byte>, pos: nat, q: int, best: Choice)
    requires pos + 2 < |data| && 0 <= q < pos
  {
    var len := MatchLength(data, q, pos);
    len <= best.len && (len == best.len && len > 0 ==> best.src <= q)
  }

  /** The next older candidate was compared; `>=` lets it replace an equally long newer one. */
  lemma BestStep(data: seq<byte>, pos: nat, c: nat, best: Choice, q: nat)
    requires pos + 2 < |data| && c <= pos
    requires BestFrom(data, pos, c, best)
    requires q == Newest(data, Hash(data, pos), c) && WindowStart(pos) <= q
    ensures var len := MatchLength(data, q, pos);
            BestFrom(data, pos, q, if len >= best.len then Choice(len, q) else best)
  {
    NewestIsNewest(data, Hash(data, pos), c);
    hide Hash, Newest, MatchLength;
  }

  /** One more candidate. */
  lemma OneMore(data: seq<byte>, pos: nat, c: nat, q: nat)
    requires pos + 2 < |data| && c <= pos
    requires q == Newest(data, Hash(data, pos), c) && WindowStart(pos) <= q
    ensures Newer(data, pos, q) == Newer(data, pos, c) + 1
  {
    NewestIsNewest(data, Hash(data, pos), c);
    hide Hash, Newest;
    NoneNewer(data, pos, q + 1, c);
  }

  /** The walk stopped at c, because nothing is left or because the limit was reached. */
  lemma BestIsTried(data: seq<byte>, pos: nat, limit: nat, c: nat, best: Choice)
    requires pos + 2 < |data| && c <= pos && best.len <= F && BestFrom(data, pos, c, best)
    requires Newer(data, pos, c) <= limit
    requires Newest(data, Hash(data, pos), c) < WindowStart(pos) || Newer(data, pos, c) == limit
    ensures IsBestTried(data, pos, limit, best)
  {
    NewestIsNewest(data, Hash(data, pos), c);
    hide Hash, Newest, MatchLength, Newer;
    forall q | Candidate(data, pos, q) ensures Tried(data, pos, limit, q) <==> c <= q {
      if c <= q || Newer(data, pos, c) == limit { TriedFrom(data, pos, limit, c, q); }
    }
  }

  lemma TriedFrom(data: seq<byte>, pos: nat, limit: nat, c: nat, q: nat)
    requires pos + 2 < |data| && c <= pos && Candidate(data, pos, q)
    requires Newer(data, pos, c) <= limit && (q < c ==> Newer(data, pos, c) == limit)
    ensures Tried(data, pos, limit, q) <==> c <= q
  {
    hide Hash;
    if c <= q { NewerMono(data, pos, c, q); } else { NewerMono(data, pos, q + 1, c); }
  }

  lemma BestStart(data: seq<byte>, pos: nat)
    requires pos + 2 < |data|
    ensures BestFrom(data, pos, pos, Choice(0, 0)) && Newer(data, pos, pos) == 0
  {
  }

  lemma NoRoom(data: seq<byte>, pos: nat)
    requires pos <= |data| && MaxLength(data, pos) < THRESHOLD + 1
    ensures IsBest(data, pos, Choice(0, 0))
  {
  }

  /** The comparison loop. */
  method CompareAt(data: seq<byte>, cand: nat, pos: nat) returns (length: nat)
    requires cand < pos < |data|
    ensures length == MatchLength(data, cand, pos)
  {
    length := 0;
    while length < MaxLength(data, pos) && data[cand + length] == data[pos + length]
      invariant length <= MaxLength(data, pos) && Matches(data, cand, pos, length)
      invariant MatchLengthFrom(data, cand, pos, length) == MatchLength(data, cand, pos)
    {
      assert Repeats(data, cand, pos, length);
      length := length + 1;
    }
  }

  /** Walks the chain of pos, newest candidate first, at most maxChain of them. `looped` reports the guard against
      a link that does not lead further back: it never fires. */
  method FindMatch(data: seq<byte>, head: array<int>, prev: array<int>, pos: nat, maxChain: nat)
    returns (best: Choice, looped: bool)
    requires pos < |data| && Linked(data, head[..], prev[..], pos)
    ensures !looped
    ensures best.len <= F && IsBestTried(data, pos, maxChain, best)
  {
    hide Hash, Newest, MatchLength, BestFrom, IsBestTried, Newer;
    best, looped := Choice(0, 0), false;
    if MaxLength(data, pos) < THRESHOLD + 1 {
      NothingTried(data, pos, maxChain);
      return;
    }
    var windowStart := WindowStart(pos);
    var h := Hash(data, pos);
    var cand, chain := head[h], maxChain;
    ghost var c: nat := pos;
    BestStart(data, pos);
    while cand != NONE && cand >= windowStart && chain > 0
      invariant c <= pos && cand == Newest(data, h, c)
      invariant best.len <= F && BestFrom(data, pos, c, best)
      invariant 0 <= chain && chain + Newer(data, pos, c) == maxChain
      decreases cand
    {
      chain := chain - 1;
      var length := CompareAt(data, cand, pos);
      BestStep(data, pos, c, best, cand);
      OneMore(data, pos, c, cand);
      if length >= best.len {
        best := Choice(length, cand);
      }
      var next := prev[cand % N];
      assert next == Newest(data, h, cand) by {
        assert LinkAt(data, prev[..], cand);
      }
      if next != NONE && next >= cand {
        looped := true;
        break;
      }
      c, cand := cand, next;
    }
    BestIsTried(data, pos, maxChain, c, best);
  }

  lemma NothingTried(data: seq<byte>, pos: nat, limit: nat)
    requires pos <= |data| && MaxLength(data, pos) < THRESHOLD + 1
    ensures IsBestTried(data, pos, limit, Choice(0, 0))
  {
  }

  lemma GreedyUnfold(data: seq<byte>, pos: nat)
    requires pos < |data|
    ensures var s := SymbolFor(data, pos, Exhaustive(data, pos));
            pos + s.Length() <= |data| && Greedy(data, pos) == [s] + Greedy(data, pos + s.Length())
  {
    ExhaustiveIsBest(data, pos);
    SymbolSpells(data, pos, Exhaustive(data, pos));
  }

  /** What an encoder writes from position pos on that searches the newest `limit` candidates. */
  ghost function Limited(data: seq<byte>, pos: nat, limit: nat): seq<Symbol>
    requires pos <= |data|
    decreases |data| - pos
  {
    if pos == |data| then [] else
      var c := Pick(data, pos, limit);
      PickSpells(data, pos, limit);
      [SymbolFor(data, pos, c)] + Limited(data, pos + SymbolFor(data, pos, c).Length(), limit)
  }

  lemma PickSpells(data: seq<byte>, pos: nat, limit: nat)
    requires pos < |data|
    ensures var s := SymbolFor(data, pos, Pick(data, pos, limit));
            0 < s.Length() && pos + s.Length() <= |data| && Spells(data, pos, [s], pos + s.Length())
  {
    hide IsBestTried, Pick, MatchLength, Spells;
    PickIsBest(data, pos, limit);
    var c := Pick(data, pos, limit);
    if c.len > THRESHOLD { TriedIsReal(data, pos, limit, c); }
    SymbolSpells(data, pos, c);
  }

  lemma LimitedUnfold(data: seq<byte>, pos: nat, limit: nat)
    requires pos < |data|
    ensures var s := SymbolFor(data, pos, Pick(data, pos, limit));
            pos + s.Length() <= |data| && Limited(data, pos, limit) == [s] + Limited(data, pos + s.Length(), limit)
  {
    PickSpells(data, pos, limit);
  }

  lemma LimitedStep(data: seq<byte>, syms: seq<Symbol>, pos: nat, limit: nat, best: Choice)
    requires pos < |data| && best.len <= F && IsBestTried(data, pos, limit, best)
    ensures var s := SymbolFor(data, pos, best);
            && pos + s.Length() <= |data|
            && syms + Limited(data, pos, limit) == (syms + [s]) + Limited(data, pos + s.Length(), limit)
  {
    hide Limited, IsBestTried, SymbolFor, Pick;
    PickIsBest(data, pos, limit);
    TriedSymbol(data, pos, limit, best, Pick(data, pos, limit));
    LimitedUnfold(data, pos, limit);
    var s := SymbolFor(data, pos, best);
    SnocSymbol(syms, s, Limited(data, pos + s.Length(), limit));
  }

  /** With a limit as large as the window this is the parse of the exhaustive search. */
  lemma {:induction false} LimitedIsGreedy(data: seq<byte>, pos: nat, limit: nat)
    requires pos <= |data| && limit >= N
    ensures Limited(data, pos, limit) == Greedy(data, pos)
    decreases |data| - pos
  {
    hide Pick, Exhaustive, SymbolFor, Limited, Greedy;
    if pos < |data| {
      SameSymbol(data, pos, limit);
      PickSpells(data, pos, limit);
      LimitedUnfold(data, pos, limit);
      GreedyUnfold(data, pos);
      LimitedIsGreedy(data, pos + SymbolFor(data, pos, Pick(data, pos, limit)).Length(), limit);
    } else {
      NothingLeft(data, limit);
    }
  }

  lemma SameSymbol(data: seq<byte>, pos: nat, limit: nat)
    requires pos < |data| && limit >= N
    ensures SymbolFor(data, pos, Pick(data, pos, limit)) == SymbolFor(data, pos, Exhaustive(data, pos))
  {
    hide IsBestTried, IsBest, Pick, Exhaustive, SymbolFor;
    PickIsBest(data, pos, limit);
    AllTried(data, pos, limit, Pick(data, pos, limit));
    ExhaustiveIsBest(data, pos);
    BestSymbol(data, pos, Pick(data, pos, limit), Exhaustive(data, pos));
  }

  lemma NothingLeft(data: seq<byte>, limit: nat)
    ensures Limited(data, |data|, limit) == Greedy(data, |data|) == []
  {
  }

  /** Nine equal bytes are a literal and a match that overlaps itself, whatever the limit. */
  lemma NineBytes(limit: nat)
    requires limit > 0
    ensures var data: seq<byte> := seq(9, _ => 0x61);
            Limited(data, 0, limit) == [Literal(0x61), Match(4078, 8)] && Serialize(Limited(data, 0, limit)) == [0x01, 0x61, 0xEE, 0xF5]
  {
    var data: seq<byte> := seq(9, _ => 0x61);
    hide Limited, Pick, Hash, MatchLength, Tried;
    NineFirst(data, limit);
    NineSecond(data, limit);
    LimitedUnfold(data, 0, limit);
    LimitedUnfold(data, 1, limit);
    NothingLeft(data, limit);
    assert Limited(data, 1, limit) == [Match(4078, 8)] + [];
    NineBytesOut();
  }

  lemma NineFirst(data: seq<byte>, limit: nat)
    requires |data| == 9
    ensures SymbolFor(data, 0, Pick(data, 0, limit)) == Literal(data[0])
  {
    hide Pick, Hash, MatchLength, Newer;
    PickIsBest(data, 0, limit);
  }

  lemma NineSecond(data: seq<byte>, limit: nat)
    requires |data| == 9 && limit > 0 && forall i :: 0 <= i < 9 ==> data[i] == data[0]
    ensures SymbolFor(data, 1, Pick(data, 1, limit)) == Match(4078, 8)
  {
    hide Pick, MatchLength, Newer;
    PickIsBest(data, 1, limit);
    var c := Pick(data, 1, limit);
    assert MatchLength(data, 0, 1) == 8;
    assert Candidate(data, 1, 0);
    NewestIsEnough(data, 1, limit, 0, c);
    TriedIsReal(data, 1, limit, c);
  }

  lemma NineBytesOut()
    ensures Serialize([Literal(0x61), Match(4078, 8)]) == [0x01, 0x61, 0xEE, 0xF5]
  {
    var syms := [Literal(0x61), Match(4078, 8)];
    assert syms[..2] == syms && syms[2..] == [];
    assert syms[1..] == [Match(4078, 8)] && syms[1..][1..] == [];
    SerializeGroup(syms);
    SerializeEmpty();
    assert Bytes(syms[1..]) == [0xEE, 0xF5] + [];
    assert Bytes(syms) == [0x61] + [0xEE, 0xF5];
    assert Flags(syms[1..]) == 0 && Flags(syms) == 1;
  }

  lemma SnocSymbol(a: seq<Symbol>, s: Symbol, b: seq<Symbol>)
    ensures a + ([s] + b) == (a + [s]) + b
  {
  }

  /** Nothing is linked yet. */
  lemma Start(data: seq<byte>, head: seq<int>, prev: seq<int>)
    requires |head| == HASH_SIZE && |prev| == N
    requires forall h :: 0 <= h < HASH_SIZE ==> head[h] == NONE
    ensures Linked(data, head, prev, 0)
  {
  }

  /** The symbols stand for the first pos bytes, and are those of the search with that limit. */
  ghost predicate Encoded(data: seq<byte>, syms: seq<Symbol>, pos: nat, limit: nat) {
    pos <= |data| && Spells(data, 0, syms, pos) && syms + Limited(data, pos, limit) == Limited(data, 0, limit)
  }

  lemma Chosen(data: seq<byte>, syms: seq<Symbol>, pos: nat, best: Choice, limit: nat)
    requires pos < |data| && best.len <= F && Encoded(data, syms, pos, limit) && IsBestTried(data, pos, limit, best)
    ensures pos + SymbolFor(data, pos, best).Length() <= |data|
    ensures Encoded(data, syms + [SymbolFor(data, pos, best)], pos + SymbolFor(data, pos, best).Length(), limit)
  {
    hide Spells, Limited, IsBestTried, Useful, MatchLength;
    var s := SymbolFor(data, pos, best);
    if best.len > THRESHOLD { TriedIsReal(data, pos, limit, best); }
    SymbolSpells(data, pos, best);
    SpellsMore(data, 0, syms, pos, s, pos + s.Length());
    LimitedStep(data, syms, pos, limit, best);
  }

  lemma EncodedStart(data: seq<byte>, limit: nat)
    ensures Encoded(data, [], 0, limit)
  {
    hide Limited;
    assert [] + Limited(data, 0, limit) == Limited(data, 0, limit);
  }

  lemma EncodedEnd(data: seq<byte>, syms: seq<Symbol>, limit: nat)
    requires Encoded(data, syms, |data|, limit)
    ensures Spells(data, 0, syms, |data|) && syms == Limited(data, 0, limit)
  {
    assert syms + [] == syms;
  }

  /** One turn of the main loop of lzss_compress. */
  method EncodeAt(data: seq<byte>, head: array<int>, prev: array<int>, e: Emitter, pos: nat, maxChain: nat) returns (p: nat)
    requires head != prev && pos < |data|
    requires Linked(data, head[..], prev[..], pos)
    requires e.Valid() && Encoded(data, e.syms, pos, maxChain)
    modifies head, prev, e
    ensures pos < p <= |data| && Linked(data, head[..], prev[..], p)
    ensures e.Valid() && Encoded(data, e.syms, p, maxChain)
  {
    hide Linked, Encoded, Emitting, Useful, IsBestTried, MatchLength, RingPosition;
    var best, _ := FindMatch(data, head, prev, pos, maxChain);
    Chosen(data, e.syms, pos, best, maxChain);
    if best.len > THRESHOLD {
      InsertRange(data, head, prev, pos, best.len);
      e.PutMatch(RingPosition(best.src), best.len);
      p := pos + best.len;
    } else {
      InsertRange(data, head, prev, pos, 1);
      e.PutLiteral(data[pos]);
      p := pos + 1;
    }
  }

  /** lzss_compress. Whatever the chain limit, the stream is that of a search of as many candidates and stands for
      the data; with a chain as long as the window it is the one that exhaustive search gives. */
  method Compress(data: seq<byte>, maxChain: nat) returns (out: seq<byte>, ghost syms: seq<Symbol>)
    ensures out == Serialize(syms) && Spells(data, 0, syms, |data|)
    ensures syms == Limited(data, 0, maxChain) && (maxChain >= N ==> syms == Greedy(data, 0))
    ensures |out| <= |data| + (|data| + 7) / 8
    ensures forall memory :: |memory| == N + F - 1 ==> Decoded(out, |data|, memory) == data
  {
    hide Linked, Emitting, Spells, Greedy, Limited, Serialize, Decoded, Encoded;
    var head := new int[HASH_SIZE](_ => NONE);
    var prev := new int[N](_ => NONE);
    Start(data, head[..], prev[..]);
    EncodedStart(data, maxChain);
    var e := new Emitter();
    var pos := 0;
    while pos < |data|
      invariant pos <= |data| && e.Valid()
      invariant Linked(data, head[..], prev[..], pos)
      invariant Encoded(data, e.syms, pos, maxChain)
    {
      pos := EncodeAt(data, head, prev, e, pos, maxChain);
    }
    EncodedEnd(data, e.syms, maxChain);
    e.Finish();
    out, syms := e.out, e.syms;
    if maxChain >= N { LimitedIsGreedy(data, 0, maxChain); }
    AnyMemory(data, syms);
  }

  /** The stream decodes to the data, whatever the decoder's ring held. */
  lemma AnyMemory(data: seq<byte>, syms: seq<Symbol>)
    requires Spells(data, 0, syms, |data|)
    ensures |Serialize(syms)| <= |data| + (|data| + 7) / 8
    ensures forall memory :: |memory| == N + F - 1 ==> Decoded(Serialize(syms), |data|, memory) == data
  {
    hide Spells, Serialize, Decoded;
    forall memory: seq<byte> | |memory| == N + F - 1 ensures Decoded(Serialize(syms), |data|, memory) == data {
      Unpacks(data, syms, memory);
    }
    Unpacks(data, syms, seq(N + F - 1, i => 0));
  }
}
