/** The LZSS stream format of MinimalOS: symbols, their byte layout, and the ring-buffer decoder.
    The decoder is specified by plain copying from an unbounded history; its ring refines that. */
module Lzss {
  import opened Options
  import opened Words

  const N := 4096
  const F := 18
  const THRESHOLD := 2

  /** A flag bit of 1 announces a literal, 0 a match: a place in the ring and a length. */
  datatype RawSymbol = Literal(b: byte) | Match(at: nat, len: nat) {
    predicate Valid() {
      Match? ==> at < N && THRESHOLD < len <= F
    }
    ghost function Length(): nat {
      if Literal? then 1 else len
    }
  }

  type Symbol = s: RawSymbol | s.Valid() witness Literal(0)

  // ---- byte layout ----

  function MatchLow(at: nat): byte
    requires at < N
  {
    at % 256
  }

  function MatchHigh(at: nat, len: nat): byte
    requires at < N && THRESHOLD < len <= F
  {
    at / 256 * 16 + (len - (THRESHOLD + 1))
  }

  /** The two bytes of a match: twelve bits of its place in the ring, eight of them first, and four of its length. */
  lemma MatchPlaces(at: nat, len: nat)
    requires at < N && THRESHOLD < len <= F
    ensures MatchLow(at) as int + 256 * (MatchHigh(at, len) as int / 16) == at && MatchHigh(at, len) as int % 16 == len - 3
  {
  }

  ghost function SymbolBytes(s: Symbol): seq<byte>
  {
    if s.Literal? then [s.b] else [MatchLow(s.at), MatchHigh(s.at, s.len)]
  }

  ghost function Bytes(syms: seq<Symbol>): seq<byte>
  {
    if syms == [] then [] else SymbolBytes(syms[0]) + Bytes(syms[1..])
  }

  function Pow2(n: nat): nat {
    if n == 0 then 1 else 2 * Pow2(n - 1)
  }

  /** The first symbol's flag is the lowest bit. */
  ghost function Flags(syms: seq<Symbol>): (f: nat)
    ensures f < Pow2(|syms|)
  {
    if syms == [] then 0 else (if syms[0].Literal? then 1 else 0) + 2 * Flags(syms[1..])
  }

  ghost function ShiftRight(n: nat, k: nat): nat {
    if k == 0 then n else ShiftRight(n / 2, k - 1)
  }

  /** Bit k of the flags announces symbol k. */
  lemma {:induction false} FlagBit(syms: seq<Symbol>, k: nat)
    requires k < |syms|
    ensures ShiftRight(Flags(syms), k) % 2 == 1 <==> syms[k].Literal?
    decreases k
  {
    hide Flags;
    FirstFlag(syms);
    if k > 0 {
      FlagBit(syms[1..], k - 1);
    }
  }

  lemma FirstFlag(syms: seq<Symbol>)
    requires syms != []
    ensures Flags(syms) % 2 == (if syms[0].Literal? then 1 else 0) && Flags(syms) / 2 == Flags(syms[1..])
  {
    hide Pow2;
    var bit := if syms[0].Literal? then 1 else 0;
    assert Flags(syms) == bit + 2 * Flags(syms[1..]);
    hide Flags;
    HalfOf(bit, Flags(syms[1..]));
  }

  lemma HalfOf(bit: nat, rest: nat)
    requires bit <= 1
    ensures (bit + 2 * rest) % 2 == bit && (bit + 2 * rest) / 2 == rest
  {
  }

  ghost function GroupSize(syms: seq<Symbol>): nat {
    if |syms| < 8 then |syms| else 8
  }

  /** One flag byte in front of every eight symbols; the last group may be shorter. */
  ghost function Serialize(syms: seq<Symbol>): seq<byte>
  {
    if syms == [] then [] else
      var k := GroupSize(syms);
      FlagsFit(syms[..k]);
      [Flags(syms[..k])] + Bytes(syms[..k]) + Serialize(syms[k..])
  }

  lemma FlagsFit(g: seq<Symbol>)
    requires |g| <= 8
    ensures Flags(g) < 256
  {
    PowUpTo8(|g|);
  }

  lemma PowUpTo8(k: nat)
    requires k <= 8
    ensures Pow2(k) <= 256
  {
    assert Pow2(8) == 2 * Pow2(7) && Pow2(7) == 2 * Pow2(6) && Pow2(6) == 2 * Pow2(5) && Pow2(5) == 2 * Pow2(4);
    PowMono(k, 8);
  }

  lemma {:induction false} PowMono(a: nat, b: nat)
    requires a <= b
    ensures Pow2(a) <= Pow2(b)
    decreases b
  {
    if a < b { PowMono(a, b - 1); }
  }

  // ---- reading the layout back ----

  /** `bits` are the flags not used yet, `left` how many they are. A stream that ends inside a symbol
      ends before it. */
  ghost function Parse(input: seq<byte>, i: nat, bits: nat, left: nat): (syms: seq<Symbol>)
    requires i <= |input|
    decreases |input| - i
  {
    if left == 0 then
      if i == |input| then [] else Parse(input, i + 1, input[i], 8)
    else if bits % 2 == 1 then
      if i == |input| then []
      else [Literal(input[i])] + Parse(input, i + 1, bits / 2, left - 1)
    else
      if i + 2 > |input| then []
      else [MatchAt(input[i], input[i + 1])] + Parse(input, i + 2, bits / 2, left - 1)
  }

  /** The ring position is 12 bits wide; the length field counts from THRESHOLD + 1. */
  function MatchAt(low: byte, high: byte): (s: Symbol)
  {
    Match(low + high / 16 * 256, high % 16 + THRESHOLD + 1)
  }

  lemma MatchRoundTrip(at: nat, len: nat)
    requires at < N && THRESHOLD < len <= F
    ensures MatchAt(MatchLow(at), MatchHigh(at, len)) == Match(at, len)
  {
  }

  lemma Advance(input: seq<byte>, i: nat, a: seq<byte>, b: seq<byte>)
    requires i <= |input| && input[i..] == a + b
    ensures i + |a| <= |input| && input[i + |a|..] == b
    ensures forall k :: 0 <= k < |a| ==> input[i + k] == a[k]
  {
    assert input[i + |a|..] == input[i..][|a|..];
    assert forall k :: 0 <= k < |a| ==> input[i + k] == input[i..][k];
  }

  lemma ParseOne(s: Symbol, input: seq<byte>, i: nat, rest: seq<byte>, bits: nat, left: nat)
    requires left > 0
    requires i <= |input| && input[i..] == SymbolBytes(s) + rest
    ensures i + |SymbolBytes(s)| <= |input| && input[i + |SymbolBytes(s)|..] == rest
    ensures Parse(input, i, (if s.Literal? then 1 else 0) + 2 * bits, left) ==
            [s] + Parse(input, i + |SymbolBytes(s)|, bits, left - 1)
  {
    Advance(input, i, SymbolBytes(s), rest);
    HalfOf(if s.Literal? then 1 else 0, bits);
    if s.Literal? {
      assert input[i + 0] == s.b;
    } else {
      MatchRoundTrip(s.at, s.len);
      hide MatchLow, MatchHigh, MatchAt;
      assert input[i + 0] == MatchLow(s.at) && input[i + 1] == MatchHigh(s.at, s.len);
    }
  }

  lemma {:induction false} ParseGroup(syms: seq<Symbol>, input: seq<byte>, i: nat, rest: seq<byte>, left: nat)
    requires |syms| <= left
    requires i <= |input| && input[i..] == Bytes(syms) + rest
    ensures i + |Bytes(syms)| <= |input| && input[i + |Bytes(syms)|..] == rest
    ensures Parse(input, i, Flags(syms), left) == syms + Parse(input, i + |Bytes(syms)|, 0, left - |syms|)
    decreases |syms|
  {
    hide Parse, SymbolBytes;
    if syms == [] {
      assert syms + Parse(input, i, 0, left) == Parse(input, i, 0, left);
    } else {
      var b, tail := SymbolBytes(syms[0]), Bytes(syms[1..]) + rest;
      assert input[i..] == b + tail;
      ParseOne(syms[0], input, i, tail, Flags(syms[1..]), left);
      ParseGroup(syms[1..], input, i + |b|, rest, left - 1);
      assert syms == [syms[0]] + syms[1..];
    }
  }

  /** The parser undoes the serializer. */
  lemma {:induction false} ParseSerialize(syms: seq<Symbol>, input: seq<byte>, i: nat)
    requires i <= |input| && input[i..] == Serialize(syms)
    ensures Parse(input, i, 0, 0) == syms
    decreases |syms|
  {
    hide Parse, Bytes, Flags, Serialize;
    ParseUnfold(input, i);
    SerializeEmpty();
    if syms != [] {
      var k := GroupSize(syms);
      var g, rest := syms[..k], Serialize(syms[k..]);
      SerializeGroup(syms);
      Advance(input, i, [Flags(g)], Bytes(g) + rest);
      assert input[i + 0] == Flags(g);
      ParseGroup(g, input, i + 1, rest, 8);
      var j := i + 1 + |Bytes(g)|;
      if k == 8 {
        ParseSerialize(syms[k..], input, j);
      } else {
        assert syms[k..] == [] && j == |input|;
        ParseUnfold(input, j);
      }
      assert syms == g + syms[k..];
    }
  }

  lemma SerializeEmpty()
    ensures Serialize([]) == []
  {
  }

  lemma SerializeGroup(syms: seq<Symbol>)
    requires syms != []
    ensures var k := GroupSize(syms);
            Flags(syms[..k]) < 256 && Serialize(syms) == [Flags(syms[..k])] + (Bytes(syms[..k]) + Serialize(syms[k..]))
  {
    var k := GroupSize(syms);
    FlagsFit(syms[..k]);
    hide Bytes, Flags;
    assert ([Flags(syms[..k])] + Bytes(syms[..k])) + Serialize(syms[k..]) ==
           [Flags(syms[..k])] + (Bytes(syms[..k]) + Serialize(syms[k..]));
  }

  lemma ParseUnfold(input: seq<byte>, i: nat)
    requires i <= |input|
    ensures i < |input| ==> Parse(input, i, 0, 0) == Parse(input, i + 1, input[i], 8)
    ensures i == |input| ==> forall left: nat :: Parse(input, i, 0, left) == []
  {
  }

  // ---- decoding over an unbounded history ----

  /** The history starts with the N bytes that the ring holds before anything was decoded. Its last N
      bytes are the ring: this is where in the history ring position p lies. */
  function WindowIndex(n: nat, p: nat): (i: nat)
    requires N <= n && p < N
    ensures n - N <= i < n
  {
    n - N + (p + F - n) % N
  }

  /** Copies byte by byte, so a copy may read what it has just written. */
  ghost function CopyFrom(h: seq<byte>, at: nat, len: nat): (r: seq<byte>)
    requires at < |h|
    ensures |r| == |h| + len && r[..|h|] == h
    decreases len
  {
    if len == 0 then h else CopyFrom(h + [h[at]], at + 1, len - 1)
  }

  /** None when the output does not fit in the `room` left. */
  ghost function Expand(h: seq<byte>, syms: seq<Symbol>, room: nat): Option<seq<byte>>
    requires N <= |h|
    decreases |syms|
  {
    if syms == [] then Some(h)
    else if syms[0].Length() > room then None
    else match syms[0]
      case Literal(b) => Expand(h + [b], syms[1..], room - 1)
      case Match(at, len) => Expand(CopyFrom(h, WindowIndex(|h|, at), len), syms[1..], room - len)
  }

  /** The ring before the first symbol, in the order in which it will be overwritten: whatever the
      allocator left in its last F bytes, then spaces. */
  ghost function InitialHistory(memory: seq<byte>): (h: seq<byte>)
    requires |memory| == N + F - 1
    ensures |h| == N
  {
    memory[N - F..N] + seq(N - F, _ => 32)
  }

  /** What lzss_decompress returns: 0 bytes when the output buffer is too small. */
  ghost function Decoded(input: seq<byte>, capacity: nat, memory: seq<byte>): seq<byte>
    requires |memory| == N + F - 1
  {
    if capacity == 0 || input == [] then [] else
      match Expand(InitialHistory(memory), Parse(input, 0, 0, 0), capacity)
      case None => []
      case Some(h) => if N <= |h| then h[N..] else []
  }

  // ---- the ring buffer decoder ----

  ghost predicate RingHolds(ring: seq<byte>, h: seq<byte>) {
    N <= |ring| && N <= |h| && forall j :: 0 <= j < N ==> ring[j] == h[WindowIndex(|h|, j)]
  }

  lemma RingPut(ring: seq<byte>, h: seq<byte>, c: byte)
    requires RingHolds(ring, h)
    ensures RingHolds(ring[(N - F + |h|) % N := c], h + [c])
  {
    var u := ring[(N - F + |h|) % N := c];
    forall j | 0 <= j < N
      ensures u[j] == (h + [c])[WindowIndex(|h| + 1, j)]
    {
      WindowShift(|h|, j);
    }
  }

  lemma WindowUnique(n: nat, p: nat, i: int)
    requires N <= n && p < N && n - N <= i < n
    ensures (N - F + i) % N == p <==> i == WindowIndex(n, p)
  {
  }

  lemma RingRead(ring: seq<byte>, h: seq<byte>, j: nat)
    requires RingHolds(ring, h) && j < N
    ensures N <= |ring| && ring[j] == h[WindowIndex(|h|, j)]
  {
  }

  lemma WindowShift(n: nat, j: nat)
    requires N <= n && j < N
    ensures WindowIndex(n + 1, j) == if j == (N - F + n) % N then n else WindowIndex(n, j)
  {
  }

  /** The k-th byte of a match is found at the next place of the ring, wrapping around. */
  lemma WindowNext(n: nat, at: nat, k: nat)
    requires N <= n && at < N
    ensures WindowIndex(n + k, (at + k) % N) == WindowIndex(n, at) + k
  {
  }

  /** The state of `flags` before it is shifted: `bits` are still to be used, and ones above them
      count them; bit 8 of the shifted value is 0 exactly when none are left. */
  ghost predicate FlagState(flags: nat, bits: nat, left: nat) {
    if left == 0 then flags / 2 / 256 % 2 == 0
    else left <= 7 && flags / 2 == bits + 255 * Pow2(left) && bits < Pow2(left)
  }

  lemma FlagStep(flags: nat, bits: nat, left: nat)
    requires FlagState(flags, bits, left)
    ensures flags / 2 / 256 % 2 == (if left == 0 then 0 else 1)
    ensures left > 0 ==> flags / 2 % 2 == bits % 2 && FlagState(flags / 2, bits / 2, left - 1)
  {
    if left > 0 {
      BitEight(flags / 2, bits, left);
      Halved(flags / 2, bits, Pow2(left - 1));
    }
  }

  lemma BitEight(v: nat, bits: nat, left: nat)
    requires 1 <= left <= 7 && v == bits + 255 * Pow2(left) && bits < Pow2(left)
    ensures v / 256 % 2 == 1
  {
    PowTable();
    hide Pow2;
  }

  lemma Halved(v: nat, bits: nat, p: nat)
    requires v == bits + 255 * (2 * p) && bits < 2 * p
    ensures v % 2 == bits % 2 && v / 2 == bits / 2 + 255 * p && bits / 2 < p
  {
    HalfOf(bits % 2, bits / 2 + 255 * p);
  }

  lemma FlagZero()
    ensures FlagState(0, 0, 0)
  {
  }

  lemma FlagLoad(f: byte)
    ensures FlagState(0xFF00 + f as int, f / 2, 7)
    ensures (0xFF00 + f as int) % 2 == f % 2
  {
    PowTable();
  }

  lemma PowTable()
    ensures Pow2(0) == 1 && Pow2(1) == 2 && Pow2(2) == 4 && Pow2(3) == 8
    ensures Pow2(4) == 16 && Pow2(5) == 32 && Pow2(6) == 64 && Pow2(7) == 128 && Pow2(8) == 256
  {
  }

  /** The history so far is what the ring and the output buffer hold. */
  ghost predicate Synced(ring: seq<byte>, r: nat, out: seq<byte>, pos: nat, h: seq<byte>) {
    && RingHolds(ring, h)
    && r == (N - F + |h|) % N
    && pos == |h| - N && pos <= |out|
    && out[..pos] == h[N..]
  }

  /** One decoded byte goes to the output and into the ring. */
  method Put(ring: array<byte>, r: nat, out: array<byte>, pos: nat, c: byte, ghost h: seq<byte>) returns (r': nat)
    requires ring != out
    requires Synced(ring[..], r, out[..], pos, h) && pos < out.Length
    modifies ring, out
    ensures Synced(ring[..], r', out[..], pos + 1, h + [c])
  {
    SyncedNext(ring[..], r, out[..], pos, h, c);
    hide Synced;
    out[pos] := c;
    ring[r] := c;
    r' := (r + 1) % N;
    assert ring[..] == old(ring[..])[r := c] && out[..] == old(out[..])[pos := c];
  }

  lemma SyncedNext(ring: seq<byte>, r: nat, out: seq<byte>, pos: nat, h: seq<byte>, c: byte)
    requires Synced(ring, r, out, pos, h) && pos < |out|
    ensures r < |ring| && Synced(ring[r := c], (r + 1) % N, out[pos := c], pos + 1, h + [c])
  {
    RingPut(ring, h, c);
    NextPlace(N - F + |h|);
    hide RingHolds;
    assert out[pos := c][..pos + 1] == out[..pos] + [c];
    assert (h + [c])[N..] == h[N..] + [c];
  }

  lemma NextPlace(n: nat)
    ensures (n % N + 1) % N == (n + 1) % N
  {
  }

  /** The copy loop of a match; fails when the output is full. */
  method CopyMatch(ring: array<byte>, r: nat, out: array<byte>, pos: nat, at: nat, len: nat, ghost h: seq<byte>)
    returns (ok: bool, r': nat, pos': nat)
    requires ring != out && at < N
    requires Synced(ring[..], r, out[..], pos, h)
    modifies ring, out
    ensures ok <==> pos + len <= out.Length
    ensures ok ==> pos' == pos + len && Synced(ring[..], r', out[..], pos', CopyFrom(h, WindowIndex(|h|, at), len))
  {
    hide RingHolds, WindowIndex;
    ghost var g, src := h, WindowIndex(|h|, at);
    r', pos' := r, pos;
    for k := 0 to len
      invariant pos' == pos + k <= out.Length
      invariant |g| == |h| + k && Synced(ring[..], r', out[..], pos', g)
      invariant CopyFrom(g, src + k, len - k) == CopyFrom(h, src, len)
    {
      WindowNext(|h|, at, k);
      RingRead(ring[..], g, (at + k) % N);
      var c := ring[(at + k) % N];
      if pos' >= out.Length { return false, r', pos'; }
      r' := Put(ring, r', out, pos', c, g);
      pos' := pos' + 1;
      g := g + [c];
    }
    ok := true;
  }

  /** The ring as it is before the first symbol. */
  method NewRing(memory: seq<byte>) returns (ring: array<byte>)
    requires |memory| == N + F - 1
    ensures fresh(ring) && RingHolds(ring[..], InitialHistory(memory))
  {
    ring := new byte[N + F - 1](i requires 0 <= i < N + F - 1 => memory[i]);
    for i := 0 to N - F
      invariant forall j :: 0 <= j < N ==> ring[j] == if j < i then 32 else memory[j]
    {
      ring[i] := 32;
    }
  }

  lemma ExpandLiteral(h: seq<byte>, input: seq<byte>, i: nat, bits: nat, left: nat, room: nat)
    requires N <= |h| && i < |input| && left > 0 && bits % 2 == 1
    ensures Expand(h, Parse(input, i, bits, left), room) ==
            if room == 0 then None else Expand(h + [input[i]], Parse(input, i + 1, bits / 2, left - 1), room - 1)
  {
    var rest := Parse(input, i + 1, bits / 2, left - 1);
    assert Parse(input, i, bits, left) == [Literal(input[i])] + rest;
    assert ([Literal(input[i])] + rest)[1..] == rest;
  }

  lemma ExpandMatch(h: seq<byte>, input: seq<byte>, i: nat, bits: nat, left: nat, room: nat)
    requires N <= |h| && i + 2 <= |input| && left > 0 && bits % 2 == 0
    ensures var m := MatchAt(input[i], input[i + 1]);
            Expand(h, Parse(input, i, bits, left), room) ==
            if m.len > room then None
            else Expand(CopyFrom(h, WindowIndex(|h|, m.at), m.len), Parse(input, i + 2, bits / 2, left - 1), room - m.len)
  {
    var m, rest := MatchAt(input[i], input[i + 1]), Parse(input, i + 2, bits / 2, left - 1);
    assert Parse(input, i, bits, left) == [m] + rest;
    assert ([m] + rest)[1..] == rest;
  }

  lemma ParseReload(input: seq<byte>, i: nat, bits: nat)
    requires i < |input|
    ensures Parse(input, i, bits, 0) == Parse(input, i + 1, input[i], 8)
  {
  }

  /** A truncated symbol, or no symbol at all. */
  lemma ParseEnd(h: seq<byte>, input: seq<byte>, i: nat, bits: nat, left: nat, room: nat)
    requires N <= |h| && i <= |input|
    requires i == |input| || (left > 0 && bits % 2 == 0 && i + 2 > |input|)
    ensures Expand(h, Parse(input, i, bits, left), room) == Some(h)
  {
  }

  lemma SyncedOut(ring: seq<byte>, r: nat, out: seq<byte>, pos: nat, h: seq<byte>)
    requires Synced(ring, r, out, pos, h)
    ensures N <= |h| && pos <= |out| && out[..pos] == h[N..]
  {
  }

  datatype Status = More | End | Full

  /** One turn of the loop in lzss_decompress, after the flags were shifted and reloaded: the next
      symbol is decoded, unless the input ends inside it or the output is full. */
  method DecodeSymbol(input: seq<byte>, i: nat, bit: bool, ring: array<byte>, r: nat, out: array<byte>, pos: nat,
                      ghost h: seq<byte>, ghost bits: nat, ghost left: nat)
    returns (status: Status, i': nat, r': nat, pos': nat, ghost h': seq<byte>)
    requires i <= |input| && left > 0 && (bit <==> bits % 2 == 1)
    requires ring != out && pos <= out.Length && N <= |h| && Synced(ring[..], r, out[..], pos, h)
    modifies ring, out
    ensures status.More? ==>
              && i < i' <= |input|
              && pos' <= out.Length && N <= |h'| && Synced(ring[..], r', out[..], pos', h')
              && Expand(h, Parse(input, i, bits, left), out.Length - pos) ==
                 Expand(h', Parse(input, i', bits / 2, left - 1), out.Length - pos')
    ensures status.End? ==>
              && r' == r && pos' == pos && h' == h && Synced(ring[..], r, out[..], pos, h)
              && Expand(h, Parse(input, i, bits, left), out.Length - pos) == Some(h)
    ensures status.Full? ==> Expand(h, Parse(input, i, bits, left), out.Length - pos) == None
  {
    hide RingHolds, WindowIndex, CopyFrom, Expand, Parse;
    i', r', pos', h' := i, r, pos, h;
    if bit {
      if i >= |input| {
        ParseEnd(h, input, i, bits, left, out.Length - pos);
        return End, i', r', pos', h';
      }
      ExpandLiteral(h, input, i, bits, left, out.Length - pos);
      var c := input[i];
      i' := i + 1;
      if pos >= out.Length { return Full, i', r', pos', h'; }
      r' := Put(ring, r, out, pos, c, h);
      pos', h' := pos + 1, h + [c];
    } else {
      if i + 2 > |input| {
        ParseEnd(h, input, i, bits, left, out.Length - pos);
        return End, i', r', pos', h';
      }
      ExpandMatch(h, input, i, bits, left, out.Length - pos);
      var low, high := input[i], input[i + 1];
      i' := i + 2;
      var at, len := low + high / 16 * 256, high % 16 + THRESHOLD + 1;
      var ok;
      ok, r', pos' := CopyMatch(ring, r, out, pos, at, len, h);
      if !ok { return Full, i', r', pos', h'; }
      h' := CopyFrom(h, WindowIndex(|h|, at), len);
    }
    status := More;
  }

  /** Shifts the flag word and loads the next flag byte when eight bits are used up. */
  method NextFlag(input: seq<byte>, i: nat, flags: nat, ghost bits: nat, ghost left: nat)
    returns (flags': nat, i': nat, ghost bits': nat, ghost left': nat)
    requires i < |input| && FlagState(flags, bits, left)
    ensures i <= i' <= |input| && left' > 0 && (flags' % 2 == 1 <==> bits' % 2 == 1)
    ensures FlagState(flags', bits' / 2, left' - 1)
    ensures Parse(input, i, bits, left) == Parse(input, i', bits', left')
  {
    hide Parse, FlagState;
    FlagStep(flags, bits, left);
    flags', i', bits', left' := flags / 2, i, bits, left;
    if flags' / 256 % 2 == 0 {
      FlagLoad(input[i]);
      ParseReload(input, i, bits);
      flags', bits', left' := 0xFF00 + input[i] as int, input[i], 8;
      i' := i + 1;
    }
  }

  /** lzss_decompress: fills `out` and returns the number of bytes, 0 on overflow. `memory` is what the
      unzeroed allocation of the ring happens to hold. */
  method Decompress(input: seq<byte>, out: array<byte>, memory: seq<byte>) returns (n: nat)
    requires |memory| == N + F - 1
    modifies out
    ensures n == |Decoded(input, out.Length, memory)| <= out.Length
    ensures out[..n] == Decoded(input, out.Length, memory)
  {
    if out.Length == 0 || |input| == 0 { return 0; }
    var ring := NewRing(memory);
    assert Synced(ring[..], N - F, out[..], 0, InitialHistory(memory));
    var r: nat, i: nat, pos: nat, flags: nat := N - F, 0, 0, 0;
    ghost var h, bits: nat, left: nat := InitialHistory(memory), 0, 0;
    FlagZero();
    hide Expand, Parse, FlagState, InitialHistory, Synced;
    ghost var all := Expand(h, Parse(input, 0, 0, 0), out.Length);
    while i < |input|
      invariant 0 <= i <= |input| && pos <= out.Length
      invariant N <= |h| && Synced(ring[..], r, out[..], pos, h)
      invariant FlagState(flags, bits, left)
      invariant Expand(h, Parse(input, i, bits, left), out.Length - pos) == all
      decreases |input| - i
    {
      flags, i, bits, left := NextFlag(input, i, flags, bits, left);
      var status;
      status, i, r, pos, h := DecodeSymbol(input, i, flags % 2 == 1, ring, r, out, pos, h, bits, left);
      match status
      case Full => return 0;
      case End =>
        SyncedOut(ring[..], r, out[..], pos, h);
        return pos;
      case More =>
        bits, left := bits / 2, left - 1;
    }
    ParseEnd(h, input, i, bits, left, out.Length - pos);
    SyncedOut(ring[..], r, out[..], pos, h);
    return pos;
  }

  // ---- which symbols stand for which data ----

  /** Ring position of data[src], by the formula that both encoders use. */
  function RingPosition(src: nat): (p: nat)
    ensures p < N
  {
    (N - F + src) % N
  }

  /** At position pos of the data, ring position `at` holds data[Source(pos, at)], if that is not negative. */
  function Source(pos: nat, at: nat): (src: int)
    requires at < N
    ensures pos - N <= src < pos
  {
    WindowIndex(N + pos, at) - N
  }

  lemma SourceOf(pos: nat, src: nat)
    requires pos - N <= src < pos
    ensures Source(pos, RingPosition(src)) == src
  {
    WindowUnique(N + pos, RingPosition(src), N + src);
  }

  /** The k-th byte from pos repeats the k-th from src. */
  ghost predicate Repeats(data: seq<byte>, src: int, pos: nat, k: int) {
    0 <= src + k < |data| && 0 <= pos + k < |data| && data[src + k] == data[pos + k]
  }

  /** data[pos..pos + len] repeats what starts at src; the two may overlap. */
  ghost predicate Matches(data: seq<byte>, src: int, pos: nat, len: nat) {
    0 <= src < pos && pos + len <= |data| && forall k :: 0 <= k < len ==> Repeats(data, src, pos, k)
  }

  /** The symbols stand for data[from..to]. */
  ghost predicate Spells(data: seq<byte>, from: nat, syms: seq<Symbol>, to: nat)
    decreases |syms|
  {
    if syms == [] then from == to <= |data|
    else match syms[0]
      case Literal(b) => from < |data| && data[from] == b && Spells(data, from + 1, syms[1..], to)
      case Match(at, len) =>
        Matches(data, Source(from, at), from, len) && Spells(data, from + len, syms[1..], to)
  }

  lemma {:induction false} SpellsMore(data: seq<byte>, from: nat, syms: seq<Symbol>, mid: nat, s: Symbol, to: nat)
    requires Spells(data, from, syms, mid) && Spells(data, mid, [s], to)
    ensures Spells(data, from, syms + [s], to)
    decreases |syms|
  {
    if syms == [] {
      assert syms + [s] == [s];
    } else {
      assert (syms + [s])[1..] == syms[1..] + [s];
      SpellsMore(data, from + syms[0].Length(), syms[1..], mid, s, to);
    }
  }

  lemma {:induction false} SpellsLength(data: seq<byte>, from: nat, syms: seq<Symbol>, to: nat)
    requires Spells(data, from, syms, to)
    ensures from + |syms| <= to <= |data|
    ensures |Bytes(syms)| <= to - from
    decreases |syms|
  {
    if syms != [] { SpellsLength(data, from + syms[0].Length(), syms[1..], to); }
  }

  lemma {:induction false} SerializeLength(syms: seq<Symbol>)
    ensures |Serialize(syms)| == |Bytes(syms)| + (|syms| + 7) / 8
    decreases |syms|
  {
    if syms != [] {
      var k := GroupSize(syms);
      SerializeLength(syms[k..]);
      BytesConcat(syms[..k], syms[k..]);
      assert syms == syms[..k] + syms[k..];
      SerializeGroup(syms);
    }
  }

  lemma {:induction false} BytesConcat(a: seq<Symbol>, b: seq<Symbol>)
    ensures Bytes(a + b) == Bytes(a) + Bytes(b)
    decreases |a|
  {
    if a == [] {
      assert a + b == b;
    } else {
      assert (a + b)[1..] == a[1..] + b;
      BytesConcat(a[1..], b);
    }
  }

  lemma MatchesTail(data: seq<byte>, src: int, pos: nat, len: nat)
    requires Matches(data, src, pos, len) && len > 0
    ensures Matches(data, src + 1, pos + 1, len - 1)
  {
    var (s, p) := (src + 1, pos + 1);
    forall k | 0 <= k < len - 1 ensures Repeats(data, s, p, k) {
      assert Repeats(data, src, pos, k + 1);
    }
  }

  /** A copy of data that repeats itself, even into the part being written. */
  lemma {:induction false} CopySpells(h0: seq<byte>, data: seq<byte>, pos: nat, src: nat, len: nat)
    requires |h0| == N && Matches(data, src, pos, len)
    ensures CopyFrom(h0 + data[..pos], N + src, len) == h0 + data[..pos + len]
    decreases len
  {
    if len > 0 {
      var h := h0 + data[..pos];
      assert Repeats(data, src, pos, 0);
      MatchesTail(data, src, pos, len);
      assert h + [data[pos]] == h0 + data[..pos + 1];
      CopySpells(h0, data, pos + 1, src + 1, len - 1);
    }
  }

  lemma ExpandOne(h0: seq<byte>, data: seq<byte>, from: nat, syms: seq<Symbol>, to: nat, room: nat)
    requires |h0| == N && syms != [] && Spells(data, from, syms, to)
    ensures from + syms[0].Length() <= |data| && Spells(data, from + syms[0].Length(), syms[1..], to)
    ensures Expand(h0 + data[..from], syms, room) ==
            if syms[0].Length() > room then None
            else Expand(h0 + data[..from + syms[0].Length()], syms[1..], room - syms[0].Length())
  {
    var s, h := syms[0], h0 + data[..from];
    if s.Literal? {
      assert h + [s.b] == h0 + data[..from + 1];
    } else {
      assert 0 <= Source(from, s.at) && from + s.len <= |data|;
      hide CopyFrom, WindowIndex, Matches;
      CopySpells(h0, data, from, Source(from, s.at), s.len);
      assert |h| == N + from;
    }
  }

  lemma {:induction false} ExpandSpells(h0: seq<byte>, data: seq<byte>, from: nat, syms: seq<Symbol>, to: nat, room: nat)
    requires |h0| == N && Spells(data, from, syms, to)
    ensures from <= to <= |data|
    ensures Expand(h0 + data[..from], syms, room) == if to - from <= room then Some(h0 + data[..to]) else None
    decreases |syms|
  {
    if syms != [] {
      ExpandOne(h0, data, from, syms, to, room);
      hide Spells, Expand;
      var k := syms[0].Length();
      SpellsLength(data, from + k, syms[1..], to);
      if k <= room {
        ExpandSpells(h0, data, from + k, syms[1..], to, room - k);
      }
    }
  }

  /** The round trip: any stream of symbols that stand for the data decodes to the data, whatever
      the ring held before, and is reported as not fitting exactly when the buffer is too small. */
  lemma RoundTrip(data: seq<byte>, syms: seq<Symbol>, capacity: nat, memory: seq<byte>)
    requires data != [] && Spells(data, 0, syms, |data|)
    requires |memory| == N + F - 1
    ensures Decoded(Serialize(syms), capacity, memory) == if |data| <= capacity then data else []
    ensures |Serialize(syms)| <= |data| + (|data| + 7) / 8
  {
    hide Spells, Serialize, Parse, Expand, InitialHistory, Decoded;
    SpellsLength(data, 0, syms, |data|);
    SerializeLength(syms);
    NothingSerialized(syms);
    NothingSpelled(data, syms);
    var input, h0 := Serialize(syms), InitialHistory(memory);
    ParseSerialize(syms, input, 0);
    ExpandSpells(h0, data, 0, syms, |data|, capacity);
    assert input[0..] == input && h0 + data[..0] == h0 && data[..|data|] == data;
    assert (h0 + data)[N..] == data;
    DecodedIs(input, capacity, memory, data);
  }

  lemma NothingSpelled(data: seq<byte>, syms: seq<Symbol>)
    requires Spells(data, 0, syms, |data|)
    ensures syms == [] <==> data == []
  {
  }

  lemma NothingSerialized(syms: seq<Symbol>)
    ensures Serialize(syms) == [] <==> syms == []
  {
  }

  lemma DecodedIs(input: seq<byte>, capacity: nat, memory: seq<byte>, data: seq<byte>)
    requires |memory| == N + F - 1 && input != [] && data != []
    requires Expand(InitialHistory(memory), Parse(input, 0, 0, 0), capacity) ==
             if |data| <= capacity then Some(InitialHistory(memory) + data) else None
    ensures Decoded(input, capacity, memory) == if |data| <= capacity then data else []
  {
    hide Expand, Parse;
  }

  /** The same for every input, with a buffer of the right size. */
  lemma Unpacks(data: seq<byte>, syms: seq<Symbol>, memory: seq<byte>)
    requires |memory| == N + F - 1 && Spells(data, 0, syms, |data|)
    ensures Decoded(Serialize(syms), |data|, memory) == data
    ensures |Serialize(syms)| <= |data| + (|data| + 7) / 8
  {
    if data == [] {
      NothingSpelled(data, syms);
    } else {
      RoundTrip(data, syms, |data|, memory);
    }
  }
}
