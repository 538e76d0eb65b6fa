/** IMA ADPCM: the encoders of wavtoadi.py and mosmedia keep the same predictor as the player's decoder. */
module Adpcm {
  import opened Words

  type Sample = x: int | -32768 <= x <= 32767
  type Nibble = x: int | 0 <= x < 16
  type Index = x: int | 0 <= x <= 88

  /** IMA_INDEX_TABLE. */
  function IndexChange(code: Nibble): (d: int)
    ensures -1 <= d <= 8
  {
    [-1, -1, -1, -1, 2, 4, 6, 8][code % 8]
  }

  /** IMA_STEP_TABLE. */
  function StepSize(i: Index): (s: int)
    ensures 7 <= s <= 32767
  {
    if i < 10 then [7, 8, 9, 10, 11, 12, 13, 14, 16, 17][i]
    else if i < 20 then [19, 21, 23, 25, 28, 31, 34, 37, 41, 45][i - 10]
    else if i < 30 then [50, 55, 60, 66, 73, 80, 88, 97, 107, 118][i - 20]
    else if i < 40 then [130, 143, 157, 173, 190, 209, 230, 253, 279, 307][i - 30]
    else if i < 50 then [337, 371, 408, 449, 494, 544, 598, 658, 724, 796][i - 40]
    else if i < 60 then [876, 963, 1060, 1166, 1282, 1411, 1552, 1707, 1878, 2066][i - 50]
    else if i < 70 then [2272, 2499, 2749, 3024, 3327, 3660, 4026, 4428, 4871, 5358][i - 60]
    else if i < 80 then [5894, 6484, 7132, 7845, 8630, 9493, 10442, 11487, 12635, 13899][i - 70]
    else [15289, 16818, 18500, 20350, 22385, 24623, 27086, 29794, 32767][i - 80]
  }

  function Clamp(lo: int, hi: int, x: int): (r: int)
    requires lo <= hi
    ensures lo <= r <= hi
    ensures lo <= x <= hi ==> r == x
  {
    if x < lo then lo else if x > hi then hi else x
  }

  function Abs(x: int): int { if x < 0 then -x else x }

  /** What both sides carry from sample to sample. */
  datatype Ima = Ima(predictor: Sample, index: Index)

  const START := Ima(0, 0)

  // ---- the decoder ----

  function Bit(code: Nibble, weight: int): bool
    requires weight == 1 || weight == 2 || weight == 4 || weight == 8
  {
    code / weight % 2 == 1
  }

  /** The difference that the magnitude bits stand for. */
  function Delta(step: int, code: Nibble): int {
    step / 8
    + (if Bit(code, 1) then step / 4 else 0)
    + (if Bit(code, 2) then step / 2 else 0)
    + (if Bit(code, 4) then step else 0)
  }

  /** _decode_nibble: the reconstructed sample is the new predictor. */
  function Decode(s: Ima, code: Nibble): Ima {
    var delta := Delta(StepSize(s.index), code);
    Ima(Clamp(-32768, 32767, s.predictor + (if Bit(code, 8) then -delta else delta)),
        Clamp(0, 88, s.index + IndexChange(code)))
  }

  // ---- the encoder ----

  /** The encoder's state, updated in place by _ima_encode_sample and ima_encode. */
  class Channel {
    var predictor: Sample
    var index: Index

    ghost function State(): Ima
      reads this
    {
      Ima(predictor, index)
    }

    constructor ()
      ensures State() == START
    {
      predictor, index := 0, 0;
    }

    /** The new state is the decoder's for the nibble returned, and the nibble is close to the sample. */
    method Encode(sample: Sample) returns (code: Nibble)
      modifies this
      ensures code == Quantize(old(State()), sample)
      ensures State() == Decode(old(State()), code)
    {
      hide StepSize, IndexChange;
      var step := StepSize(index);
      var diff := sample - predictor;
      code := 0;
      if diff < 0 {
        code := 8;
        diff := -diff;
      }
      ghost var b4 := diff >= step;
      if diff >= step {
        code := code + 4;
        diff := diff - step;
      }
      ghost var b2 := diff >= step / 2;
      if diff >= step / 2 {
        code := code + 2;
        diff := diff - step / 2;
      }
      ghost var b1 := diff >= step / 4;
      if diff >= step / 4 {
        code := code + 1;
      }
      QuantizeBits(sample < predictor, b4, b2, b1);
      SameIndexChange(code);
      hide Bit, Clamp;
      var delta := step / 8;
      if Bit(code, 1) { delta := delta + step / 4; }
      if Bit(code, 2) { delta := delta + step / 2; }
      if Bit(code, 4) { delta := delta + step; }
      if Bit(code, 8) { delta := -delta; }
      predictor := Clamp(-32768, 32767, predictor + delta);
      index := Clamp(0, 88, index + IndexChange(code % 8));
    }
  }

  lemma SameIndexChange(code: Nibble)
    ensures IndexChange(code % 8) == IndexChange(code)
  {
  }

  /** The nibble for a sample: sign, then the magnitude in steps of a quarter step size, rounded down
      bit by bit. */
  function Quantize(s: Ima, sample: Sample): Nibble {
    var step, diff := StepSize(s.index), Abs(sample - s.predictor);
    var b4 := diff >= step;
    var d4 := if b4 then diff - step else diff;
    var b2 := d4 >= step / 2;
    var d2 := if b2 then d4 - step / 2 else d4;
    var b1 := d2 >= step / 4;
    (if sample < s.predictor then 8 else 0) + (if b4 then 4 else 0) + (if b2 then 2 else 0) + (if b1 then 1 else 0)
  }

  lemma QuantizeBits(neg: bool, b4: bool, b2: bool, b1: bool)
    ensures var c := (if neg then 8 else 0) + (if b4 then 4 else 0) + (if b2 then 2 else 0) + (if b1 then 1 else 0);
            (Bit(c, 8) <==> neg) && (Bit(c, 4) <==> b4) && (Bit(c, 2) <==> b2) && (Bit(c, 1) <==> b1)
  {
  }

  /** Within reach of the step size, the reconstruction is off by at most (step >> 3) + 2; beyond it, all
      magnitude bits are set. */
  lemma ErrorBound(s: Ima, sample: Sample)
    ensures Abs(sample - s.predictor) < 2 * StepSize(s.index) ==>
              Abs(sample - Decode(s, Quantize(s, sample)).predictor) <= StepSize(s.index) / 8 + 2
    ensures Abs(sample - s.predictor) >= 2 * StepSize(s.index) ==> Quantize(s, sample) % 8 == 7
  {
    hide StepSize, IndexChange, Clamp, Bit, Quantize;
    var step, code := StepSize(s.index), Quantize(s, sample);
    var delta := Delta(step, code);
    MagnitudeBound(s, sample);
    ClampNearer(sample, s.predictor + if Bit(code, 8) then -delta else delta);
  }

  /** The error of the magnitude alone. */
  lemma MagnitudeBound(s: Ima, sample: Sample)
    ensures var step, diff, code := StepSize(s.index), Abs(sample - s.predictor), Quantize(s, sample);
            && (Bit(code, 8) <==> sample < s.predictor)
            && (diff < 2 * step ==> Abs(diff - Delta(step, code)) <= step / 8 + 2)
            && (diff >= 2 * step ==> code % 8 == 7)
  {
    hide StepSize;
    var step, diff := StepSize(s.index), Abs(sample - s.predictor);
    var b4 := diff >= step;
    var d4 := if b4 then diff - step else diff;
    var b2 := d4 >= step / 2;
    var d2 := if b2 then d4 - step / 2 else d4;
    var b1 := d2 >= step / 4;
    QuantizeBits(sample < s.predictor, b4, b2, b1);
    hide Bit;
  }

  /** Clipping to the sample range brings a value no further from a sample. */
  lemma ClampNearer(sample: Sample, x: int)
    ensures Abs(sample - Clamp(-32768, 32767, x)) <= Abs(sample - x)
  {
  }

  // ---- adaptation ----

  /** The encoder's state after a sample. */
  ghost function Track(s: Ima, sample: Sample): Ima { Decode(s, Quantize(s, sample)) }

  /** Small magnitudes lower the index by one, large ones raise it by two for every quarter above three. */
  lemma Adaptation(s: Ima, code: Nibble)
    ensures var m := code % 8;
            Decode(s, code).index == Clamp(0, 88, s.index + if m < 4 then -1 else 2 * (m - 3))
  {
    hide StepSize, Bit, Clamp;
  }

  /** The step sizes grow by a tenth, up to rounding, from 7 to the largest sample. */
  lemma StepGrows(i: Index)
    ensures StepSize(0) == 7 && StepSize(88) == 32767
    ensures i < 87 ==> Abs(10 * StepSize(i + 1) - 11 * StepSize(i)) <= 8
    ensures i < 88 ==> StepSize(i) < StepSize(i + 1)
  {
    LastSteps();
    assert StepSize(0) == 7;
    hide StepSize;
    if i < 30 { LowSteps(i); } else if i < 60 { MiddleSteps(i); } else if i < 87 { HighSteps(i); }
  }

  ghost predicate GrowsAt(i: Index)
    requires i < 88
  {
    StepSize(i) < StepSize(i + 1) && Abs(10 * StepSize(i + 1) - 11 * StepSize(i)) <= 8
  }

  lemma LowSteps(i: Index)
    requires i < 30
    ensures GrowsAt(i)
  {
  }

  lemma MiddleSteps(i: Index)
    requires 30 <= i < 60
    ensures GrowsAt(i)
  {
  }

  lemma HighSteps(i: Index)
    requires 60 <= i < 87
    ensures GrowsAt(i)
  {
  }

  lemma {:induction false} StepMono(i: Index, j: Index)
    requires i <= j
    ensures StepSize(i) <= StepSize(j)
    decreases j - i
  {
    hide StepSize;
    if i < j {
      StepGrows(i);
      StepMono(i + 1, j);
    }
  }

  lemma StepBound(i: Index)
    requires i < 88
    ensures StepSize(i + 1) <= 2 * StepSize(i)
  {
    StepGrows(i);
    StepGrows(87);
    hide StepSize;
    if i == 87 { LastSteps(); }
  }

  lemma LastSteps()
    ensures StepSize(87) == 29794 && StepSize(88) == 32767
  {
  }

  /** The states of the encoder, and of the decoder, while the signal is constant. */
  ghost function Settle(s: Ima, c: Sample, n: nat): Ima {
    if n == 0 then s else Track(Settle(s, c, n - 1), c)
  }

  lemma {:induction false} SettleSum(s: Ima, c: Sample, m: nat, n: nat)
    ensures Settle(s, c, m + n) == Settle(Settle(s, c, m), c, n)
    decreases n
  {
    hide Track;
    if n > 0 { SettleSum(s, c, m, n - 1); }
  }

  ghost function Off(s: Ima, c: Sample): nat { Abs(c - s.predictor) }

  /** The sample is in reach of the step size. */
  ghost predicate Near(s: Ima, c: Sample) { Off(s, c) < 2 * StepSize(s.index) }

  /** The error is small for the step size of the next higher index. */
  ghost predicate Settled(s: Ima, c: Sample) {
    Off(s, c) <= StepSize(if s.index < 88 then s.index + 1 else 88) / 8 + 2
  }

  /** Out of reach, the predictor comes nearer by nearly two steps and the index rises by eight. */
  lemma BigMove(s: Ima, c: Sample)
    requires !Near(s, c)
    ensures var t, step := Track(s, c), StepSize(s.index);
            && t.index == (if s.index + 8 < 88 then s.index + 8 else 88)
            && Off(t, c) == Off(s, c) - (step / 8 + step / 4 + step / 2 + step)
  {
    hide StepSize, IndexChange, Quantize, Bit, Clamp;
    var code := Quantize(s, c);
    MagnitudeBound(s, c);
    Adaptation(s, code);
    FullDelta(StepSize(s.index), code);
    InsideClamp(s.index + 8);
  }

  lemma FullDelta(step: int, code: Nibble)
    requires code % 8 == 7
    ensures Delta(step, code) == step / 8 + step / 4 + step / 2 + step
  {
  }

  lemma InsideClamp(x: int)
    requires x >= 0
    ensures Clamp(0, 88, x) == if x < 88 then x else 88
  {
  }

  /** At the highest index one move is enough. */
  lemma TopMove(s: Ima, c: Sample)
    requires !Near(s, c) && s.index == 88
    ensures Near(Track(s, c), c)
  {
    LastSteps();
    hide StepSize, Track;
    BigMove(s, c);
  }

  /** A constant signal comes into reach after twelve samples at most. */
  lemma {:induction false} Caught(s: Ima, c: Sample) returns (n: nat)
    ensures n <= (95 - s.index) / 8 + 1 && Near(Settle(s, c, n), c)
    decreases 88 - s.index
  {
    hide Track, StepSize, Near, Off;
    n := 0;
    if !Near(s, c) {
      var t := Track(s, c);
      BigMove(s, c);
      assert Settle(s, c, 1) == t by { assert Settle(s, c, 0) == s; }
      if s.index == 88 {
        TopMove(s, c);
        n := 1;
      } else {
        var k := Caught(t, c);
        SettleSum(s, c, 1, k);
        n := k + 1;
      }
    }
  }

  /** In reach, one sample settles it. */
  lemma NearSettles(s: Ima, c: Sample)
    requires Near(s, c)
    ensures Settled(Track(s, c), c)
  {
    hide StepSize, Quantize, IndexChange, Bit, Delta;
    ErrorBound(s, c);
    var t := Track(s, c);
    Adaptation(s, Quantize(s, c));
    StepMono(s.index, if t.index < 88 then t.index + 1 else 88);
  }

  /** A settled signal stays so while the index falls, step by step, to 0. */
  lemma SettledFalls(s: Ima, c: Sample)
    requires Settled(s, c)
    ensures var t := Track(s, c);
            Settled(t, c) && t.index == (if s.index > 0 then s.index - 1 else 0) && Off(t, c) <= StepSize(s.index) / 8 + 2
  {
    hide StepSize, Quantize, IndexChange, Bit, Delta;
    if s.index < 88 { StepBound(s.index); }
    ErrorBound(s, c);
    SmallCode(s, c);
    Adaptation(s, Quantize(s, c));
    StepMono(s.index, if s.index > 0 then s.index else 1);
  }

  lemma SmallCode(s: Ima, c: Sample)
    requires Off(s, c) < StepSize(s.index)
    ensures Quantize(s, c) % 8 < 4
  {
    hide StepSize;
  }

  lemma {:induction false} FallsFor(s: Ima, c: Sample, n: nat)
    requires Settled(s, c)
    ensures var t := Settle(s, c, n);
            && Settled(t, c) && t.index == (if s.index > n then s.index - n else 0)
            && (n > s.index ==> Off(t, c) <= 2)
    decreases n
  {
    hide Track, StepSize, Off, Settled;
    if n > 0 {
      FallsFor(s, c, n - 1);
      SettledFalls(Settle(s, c, n - 1), c);
      assert StepSize(0) == 7 by { StepGrows(0); }
    }
  }

  /** From any state, after 102 samples of a constant signal the predictor is within 2 of it, and stays there. */
  lemma ConstantSignal(s: Ima, c: Sample, n: nat)
    requires n >= 102
    ensures Abs(c - Settle(s, c, n).predictor) <= 2 && Settle(s, c, n).index == 0
  {
    hide Track, StepSize, Settled, Near, Settle;
    var k := Caught(s, c);
    var t := Settle(s, c, k);
    NearSettles(t, c);
    SettleNext(s, c, k);
    var u := Settle(s, c, k + 1);
    FallsFor(u, c, n - k - 1);
    SettleSum(s, c, k + 1, n - k - 1);
  }

  lemma SettleNext(s: Ima, c: Sample, k: nat)
    ensures Settle(s, c, k + 1) == Track(Settle(s, c, k), c)
  {
    hide Track;
  }

  // ---- streams ----

  function Pack(low: Nibble, high: Nibble): byte { low + 16 * high }

  ghost function PairByte(s: Ima, a: Sample, b: Sample): byte {
    Pack(Quantize(s, a), Quantize(Track(s, a), b))
  }

  ghost function TrackPair(s: Ima, a: Sample, b: Sample): Ima { Track(Track(s, a), b) }

  ghost function MonoBytes(pcm: seq<Sample>, s: Ima): seq<byte> {
    if |pcm| < 2 then [] else [PairByte(s, pcm[0], pcm[1])] + MonoBytes(pcm[2..], TrackPair(s, pcm[0], pcm[1]))
  }

  /** The predictors of the encoder, sample by sample; an odd last sample is dropped. */
  ghost function MonoTrace(pcm: seq<Sample>, s: Ima): seq<Sample> {
    if |pcm| < 2 then [] else
      [Track(s, pcm[0]).predictor, TrackPair(s, pcm[0], pcm[1]).predictor] + MonoTrace(pcm[2..], TrackPair(s, pcm[0], pcm[1]))
  }

  ghost function StereoBytes(pcm: seq<Sample>, l: Ima, r: Ima): seq<byte> {
    if |pcm| < 4 then [] else
      [PairByte(l, pcm[0], pcm[2]), PairByte(r, pcm[1], pcm[3])]
      + StereoBytes(pcm[4..], TrackPair(l, pcm[0], pcm[2]), TrackPair(r, pcm[1], pcm[3]))
  }

  /** The predictors in the order of the samples: left, right, left, right. */
  ghost function StereoTrace(pcm: seq<Sample>, l: Ima, r: Ima): seq<Sample> {
    if |pcm| < 4 then [] else
      [Track(l, pcm[0]).predictor, Track(r, pcm[1]).predictor,
       TrackPair(l, pcm[0], pcm[2]).predictor, TrackPair(r, pcm[1], pcm[3]).predictor]
      + StereoTrace(pcm[4..], TrackPair(l, pcm[0], pcm[2]), TrackPair(r, pcm[1], pcm[3]))
  }

  ghost function MonoSamples(payload: seq<byte>, s: Ima): seq<Sample> {
    if payload == [] then [] else
      var a := Decode(s, payload[0] % 16);
      var b := Decode(a, payload[0] / 16);
      [a.predictor, b.predictor] + MonoSamples(payload[1..], b)
  }

  ghost function StereoSamples(payload: seq<byte>, l: Ima, r: Ima): seq<Sample> {
    if |payload| < 2 then [] else
      var l0 := Decode(l, payload[0] % 16);
      var r0 := Decode(r, payload[1] % 16);
      var l1 := Decode(l0, payload[0] / 16);
      var r1 := Decode(r0, payload[1] / 16);
      [l0.predictor, r0.predictor, l1.predictor, r1.predictor] + StereoSamples(payload[2..], l1, r1)
  }

  lemma Unpack(s: Ima, a: Sample, b: Sample)
    ensures PairByte(s, a, b) % 16 == Quantize(s, a) && PairByte(s, a, b) / 16 == Quantize(Track(s, a), b)
  {
    hide Quantize, Decode;
  }

  /** What is decoded of a constant signal. */
  lemma {:induction false} ConstantTrace(pcm: seq<Sample>, s: Ima, c: Sample, k: nat)
    requires (forall i :: 0 <= i < |pcm| ==> pcm[i] == c) && k < |pcm| / 2 * 2
    ensures k < |MonoTrace(pcm, s)| && MonoTrace(pcm, s)[k] == Settle(s, c, k + 1).predictor
    decreases |pcm|
  {
    hide Track;
    var t := TrackPair(s, c, c);
    assert Settle(s, c, 0) == s && Settle(s, c, 1) == Track(s, c) && Settle(s, c, 2) == t;
    if k >= 2 {
      ConstantTrace(pcm[2..], t, c, k - 2);
      SettleSum(s, c, 2, k - 1);
      assert MonoTrace(pcm, s)[k] == MonoTrace(pcm[2..], t)[k - 2];
    }
  }

  /** A constant signal is played back within 2 of its value from sample 101 on. */
  lemma SteadyTone(pcm: seq<Sample>, s: Ima, c: Sample, k: nat)
    requires (forall i :: 0 <= i < |pcm| ==> pcm[i] == c) && 101 <= k < |pcm| / 2 * 2
    ensures var heard := MonoSamples(MonoBytes(pcm, s), s); k < |heard| && Abs(c - heard[k]) <= 2
  {
    hide Track, MonoSamples, MonoBytes, MonoTrace, Settle;
    MonoLockstep(pcm, s);
    ConstantTrace(pcm, s, c, k);
    ConstantSignal(s, c, k + 1);
  }

  /** Lockstep: decoding the packed nibbles gives the encoder's predictors, sample for sample. */
  lemma {:induction false} MonoLockstep(pcm: seq<Sample>, s: Ima)
    ensures MonoSamples(MonoBytes(pcm, s), s) == MonoTrace(pcm, s)
    ensures |MonoBytes(pcm, s)| == |pcm| / 2 && |MonoTrace(pcm, s)| == |pcm| / 2 * 2
  {
    hide Quantize, Decode, PairByte;
    if |pcm| >= 2 {
      Unpack(s, pcm[0], pcm[1]);
      MonoLockstep(pcm[2..], TrackPair(s, pcm[0], pcm[1]));
      var bytes := MonoBytes(pcm, s);
      assert bytes[0] == PairByte(s, pcm[0], pcm[1]);
      assert bytes[1..] == MonoBytes(pcm[2..], TrackPair(s, pcm[0], pcm[1]));
    }
  }

  lemma {:induction false} StereoLockstep(pcm: seq<Sample>, l: Ima, r: Ima)
    ensures StereoSamples(StereoBytes(pcm, l, r), l, r) == StereoTrace(pcm, l, r)
    ensures |StereoBytes(pcm, l, r)| == |pcm| / 4 * 2 && |StereoTrace(pcm, l, r)| == |pcm| / 4 * 4
  {
    hide Quantize, Decode, PairByte;
    if |pcm| >= 4 {
      Unpack(l, pcm[0], pcm[2]);
      Unpack(r, pcm[1], pcm[3]);
      StereoLockstep(pcm[4..], TrackPair(l, pcm[0], pcm[2]), TrackPair(r, pcm[1], pcm[3]));
      var bytes := StereoBytes(pcm, l, r);
      assert bytes[0] == PairByte(l, pcm[0], pcm[2]) && bytes[1] == PairByte(r, pcm[1], pcm[3]);
      assert bytes[2..] == StereoBytes(pcm[4..], TrackPair(l, pcm[0], pcm[2]), TrackPair(r, pcm[1], pcm[3]));
    }
  }

  method EncodePair(ch: Channel, a: Sample, b: Sample) returns (x: byte)
    modifies ch
    ensures x == PairByte(old(ch.State()), a, b)
    ensures ch.State() == TrackPair(old(ch.State()), a, b)
  {
    hide Quantize, Decode;
    var low := ch.Encode(a);
    var high := ch.Encode(b);
    x := Pack(low, high);
  }

  /** encode_ima_adpcm. */
  method EncodeIma(pcm: seq<Sample>, channels: nat) returns (out: seq<byte>)
    ensures channels == 2 ==> out == StereoBytes(pcm, START, START)
    ensures channels != 2 ==> out == MonoBytes(pcm, START)
  {
    if channels == 2 {
      out := EncodeStereo(pcm);
    } else {
      out := EncodeMono(pcm);
    }
  }

  method EncodeMono(pcm: seq<Sample>) returns (out: seq<byte>)
    ensures out == MonoBytes(pcm, START)
  {
    hide PairByte, TrackPair;
    out := [];
    var ch := new Channel();
    var i := 0;
    while i < |pcm| - 1
      invariant 0 <= i <= |pcm|
      invariant out + MonoBytes(pcm[i..], ch.State()) == MonoBytes(pcm, START)
    {
      MonoStep(pcm, i, ch.State());
      var x := EncodePair(ch, pcm[i], pcm[i + 1]);
      out := out + [x];
      i := i + 2;
    }
  }

  lemma MonoStep(pcm: seq<Sample>, i: nat, s: Ima)
    requires i + 1 < |pcm|
    ensures MonoBytes(pcm[i..], s) == [PairByte(s, pcm[i], pcm[i + 1])] + MonoBytes(pcm[i + 2..], TrackPair(s, pcm[i], pcm[i + 1]))
  {
    assert pcm[i..][2..] == pcm[i + 2..];
  }

  method EncodeStereo(pcm: seq<Sample>) returns (out: seq<byte>)
    ensures out == StereoBytes(pcm, START, START)
  {
    hide PairByte, TrackPair, StereoBytes;
    out := [];
    var left := new Channel();
    var right := new Channel();
    var frames := |pcm| / 2;
    var f := 0;
    while f < frames - 1
      invariant 0 <= f <= frames
      invariant out + StereoBytes(pcm[2 * f..], left.State(), right.State()) == StereoBytes(pcm, START, START)
    {
      StereoStep(pcm, 2 * f, left.State(), right.State());
      var x := EncodePair(left, pcm[2 * f], pcm[2 * f + 2]);
      var y := EncodePair(right, pcm[2 * f + 1], pcm[2 * f + 3]);
      out := out + [x] + [y];
      f := f + 2;
    }
    StereoEnd(pcm[2 * f..], left.State(), right.State());
  }

  lemma StereoEnd(pcm: seq<Sample>, l: Ima, r: Ima)
    requires |pcm| < 4
    ensures StereoBytes(pcm, l, r) == []
  {
  }

  lemma StereoStep(pcm: seq<Sample>, i: nat, l: Ima, r: Ima)
    requires i + 3 < |pcm|
    ensures StereoBytes(pcm[i..], l, r) ==
            [PairByte(l, pcm[i], pcm[i + 2]), PairByte(r, pcm[i + 1], pcm[i + 3])]
            + StereoBytes(pcm[i + 4..], TrackPair(l, pcm[i], pcm[i + 2]), TrackPair(r, pcm[i + 1], pcm[i + 3]))
  {
    assert pcm[i..][4..] == pcm[i + 4..];
  }

  ghost function Flat(chunks: seq<seq<Sample>>): seq<Sample> {
    if chunks == [] then [] else chunks[0] + Flat(chunks[1..])
  }

  /** The inner loop of make_soundtrack: one chunk, with the channels as the chunks before left them. */
  method EncodeChunk(chunk: seq<Sample>, left: Channel, right: Channel, ghost rest: seq<Sample>) returns (out: seq<byte>)
    requires |chunk| % 4 == 0 && left != right
    modifies left, right
    ensures out + StereoBytes(rest, left.State(), right.State()) ==
            StereoBytes(chunk + rest, old(left.State()), old(right.State()))
  {
    hide PairByte, TrackPair;
    out := [];
    ghost var pcm, all := chunk + rest, StereoBytes(chunk + rest, left.State(), right.State());
    assert pcm[0..] == pcm && [] + all == all;
    for i := 0 to |chunk| / 4
      invariant out + StereoBytes(pcm[4 * i..], left.State(), right.State()) == all
    {
      StereoStep(pcm, 4 * i, left.State(), right.State());
      var x := EncodePair(left, chunk[4 * i], chunk[4 * i + 2]);
      var y := EncodePair(right, chunk[4 * i + 1], chunk[4 * i + 3]);
      out := out + [x, y];
    }
    assert pcm[|chunk|..] == rest;
  }

  /** The packing loop of make_soundtrack: however the pipe cuts the samples into chunks of whole frame pairs,
      the bytes are those of the whole stream. */
  method Soundtrack(chunks: seq<seq<Sample>>) returns (out: seq<byte>)
    requires forall k :: 0 <= k < |chunks| ==> |chunks[k]| % 4 == 0
    ensures out == StereoBytes(Flat(chunks), START, START)
  {
    hide StereoBytes;
    out := [];
    var left := new Channel();
    var right := new Channel();
    ghost var all := StereoBytes(Flat(chunks), START, START);
    assert chunks[0..] == chunks && [] + all == all;
    for k := 0 to |chunks|
      invariant out + StereoBytes(Flat(chunks[k..]), left.State(), right.State()) == all
    {
      ghost var rest := Flat(chunks[k + 1..]);
      assert chunks[k..][1..] == chunks[k + 1..];
      var bytes := EncodeChunk(chunks[k], left, right, rest);
      ghost var tail := StereoBytes(rest, left.State(), right.State());
      assert (out + bytes) + tail == out + (bytes + tail);
      out := out + bytes;
    }
    assert StereoBytes(Flat(chunks[|chunks|..]), left.State(), right.State()) == [] by { NothingLeft(left.State(), right.State()); }
  }

  lemma NothingLeft(l: Ima, r: Ima)
    ensures StereoBytes(Flat([]), l, r) == []
  {
  }

  /** _decode_ima. */
  method DecodeIma(payload: seq<byte>, channels: nat) returns (decoded: seq<Sample>)
    ensures channels == 1 ==> decoded == MonoSamples(payload, START)
    ensures channels != 1 ==> decoded == StereoSamples(payload, START, START)
  {
    hide Decode, MonoSamples, StereoSamples;
    decoded := [];
    if channels == 1 {
      var s := START;
      for i := 0 to |payload|
        invariant decoded + MonoSamples(payload[i..], s) == MonoSamples(payload, START)
      {
        MonoSamplesStep(payload, i, s);
        var a := Decode(s, payload[i] % 16);
        s := Decode(a, payload[i] / 16);
        decoded := decoded + [a.predictor, s.predictor];
      }
      SamplesEnd(payload[|payload|..], s, s);
    } else {
      var l, r := START, START;
      var usable := |payload| / 2 * 2;
      var pos := 0;
      while pos < usable
        invariant 0 <= pos <= usable && pos % 2 == 0
        invariant decoded + StereoSamples(payload[pos..], l, r) == StereoSamples(payload, START, START)
      {
        StereoSamplesStep(payload, pos, l, r);
        var left, right := payload[pos], payload[pos + 1];
        var l0 := Decode(l, left % 16);
        var r0 := Decode(r, right % 16);
        l, r := Decode(l0, left / 16), Decode(r0, right / 16);
        decoded := decoded + [l0.predictor, r0.predictor, l.predictor, r.predictor];
        pos := pos + 2;
      }
      SamplesEnd(payload[pos..], l, r);
    }
  }

  lemma MonoSamplesStep(payload: seq<byte>, i: nat, s: Ima)
    requires i < |payload|
    ensures var a := Decode(s, payload[i] % 16);
            var b := Decode(a, payload[i] / 16);
            MonoSamples(payload[i..], s) == [a.predictor, b.predictor] + MonoSamples(payload[i + 1..], b)
  {
    hide Decode;
    assert payload[i..][1..] == payload[i + 1..];
  }

  lemma StereoSamplesStep(payload: seq<byte>, i: nat, l: Ima, r: Ima)
    requires i + 1 < |payload|
    ensures var l0, r0 := Decode(l, payload[i] % 16), Decode(r, payload[i + 1] % 16);
            var l1, r1 := Decode(l0, payload[i] / 16), Decode(r0, payload[i + 1] / 16);
            StereoSamples(payload[i..], l, r) ==
            [l0.predictor, r0.predictor, l1.predictor, r1.predictor] + StereoSamples(payload[i + 2..], l1, r1)
  {
    hide Decode;
    assert payload[i..][2..] == payload[i + 2..];
  }

  lemma SamplesEnd(payload: seq<byte>, l: Ima, r: Ima)
    requires |payload| < 2
    ensures payload == [] ==> MonoSamples(payload, l) == []
    ensures StereoSamples(payload, l, r) == []
  {
  }

  /** Encoding and decoding: the player gets the encoder's predictors, in the order of the samples. */
  method EncodeAndDecode(pcm: seq<Sample>, stereo: bool) returns (decoded: seq<Sample>)
    ensures decoded == if stereo then StereoTrace(pcm, START, START) else MonoTrace(pcm, START)
  {
    hide MonoBytes, MonoTrace, MonoSamples, StereoBytes, StereoTrace, StereoSamples;
    var channels := if stereo then 2 else 1;
    var payload := EncodeIma(pcm, channels);
    decoded := DecodeIma(payload, channels);
    if stereo { StereoLockstep(pcm, START, START); } else { MonoLockstep(pcm, START); }
  }
}
