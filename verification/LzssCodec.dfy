/** The codec end to end: both encoders against the decoder and against each other. */
module LzssCodec {
  import opened Lzss
  import opened Words
  import Kernel = LzssEncoder
  import Mkpkg = MkpkgEncoder

  lemma SpellsCons(data: seq<byte>, from: nat, s: Symbol, syms: seq<Symbol>, to: nat)
    requires Spells(data, from, [s], from + s.Length()) && Spells(data, from + s.Length(), syms, to)
    ensures Spells(data, from, [s] + syms, to)
  {
    assert [s][1..] == [] && ([s] + syms)[1..] == syms;
  }

  lemma GreedyEnd(data: seq<byte>)
    ensures Spells(data, |data|, Kernel.Greedy(data, |data|), |data|)
  {
  }

  /** The greedy parse spells the input. */
  lemma {:induction false} GreedySpells(data: seq<byte>, pos: nat)
    requires pos <= |data|
    ensures Spells(data, pos, Kernel.Greedy(data, pos), |data|)
    decreases |data| - pos
  {
    hide Spells, Kernel.Greedy, Kernel.Exhaustive, Kernel.SymbolFor;
    if pos < |data| {
      Kernel.GreedyUnfold(data, pos);
      FirstSpells(data, pos);
      var s := Kernel.SymbolFor(data, pos, Kernel.Exhaustive(data, pos));
      GreedySpells(data, pos + s.Length());
      SpellsCons(data, pos, s, Kernel.Greedy(data, pos + s.Length()), |data|);
    } else {
      GreedyEnd(data);
    }
  }

  lemma FirstSpells(data: seq<byte>, pos: nat)
    requires pos < |data|
    ensures var s := Kernel.SymbolFor(data, pos, Kernel.Exhaustive(data, pos));
            Spells(data, pos, [s], pos + s.Length())
  {
    hide Spells, Kernel.Exhaustive, Kernel.SymbolFor;
    Kernel.ExhaustiveIsBest(data, pos);
    Kernel.SymbolSpells(data, pos, Kernel.Exhaustive(data, pos));
  }

  /** For every input, the empty one among them, and whatever the length of the chains, decompressing what was
      compressed gives the input back, and compression adds one flag byte for eight input bytes at most. */
  method PackAndUnpack(data: seq<byte>, maxChain: nat, memory: seq<byte>) returns (packed: seq<byte>, unpacked: seq<byte>)
    requires |memory| == N + F - 1
    ensures unpacked == data && |packed| <= |data| + (|data| + 7) / 8
  {
    hide Spells, Serialize, Kernel.Greedy, Decoded;
    ghost var syms;
    packed, syms := Kernel.Compress(data, maxChain);
    Unpacks(data, syms, memory);
    var out := new byte[|data|];
    var n := Decompress(packed, out, memory);
    unpacked := out[..n];
  }

  /** With chains that reach over the whole window the two encoders write the same bytes. */
  method BothEncoders(data: seq<byte>, maxChain: nat) returns (kernel: seq<byte>, mkpkg: seq<byte>)
    requires maxChain >= N
    ensures kernel == mkpkg
  {
    hide Spells, Serialize, Kernel.Greedy;
    ghost var syms;
    kernel, syms := Kernel.Compress(data, maxChain);
    mkpkg := Mkpkg.Compress(data);
  }
}
