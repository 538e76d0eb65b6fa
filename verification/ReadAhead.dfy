/** The read-ahead ring of mosmedia: one thread fills slots from ffmpeg's pipe, the encoder takes them.
    The counters are 32-bit and wrap; waiting threads sleep until a broadcast, or wake up for no reason. */
module ReadAhead {

  const SLOTS := 4
  const WRAP := 0x1_0000_0000

  /** Where reader_thread is. */
  datatype Producer =
    | Check             // holds the lock, about to test whether the ring is full
    | Sleep             // in cond_wait
    | Reading(slot: nat) // in fread, without the lock
    | Commit(ok: bool)  // holds the lock again
    | Stopped

  /** Where the caller of reader_next is. */
  datatype Consumer =
    | Idle(taken: bool) // outside reader_next; a frame is held when taken
    | Check             // holds the lock, about to test whether the ring is empty
    | Sleep
    | Ended             // NULL was returned

  /** `filled` and `released` count without wrapping what tail and head count; `delivered` lists the frames
      returned, with their contents at that moment. */
  datatype State<F> = State(head: nat, tail: nat, eof: bool, slots: seq<F>, producer: Producer, consumer: Consumer,
                            filled: nat, released: nat, delivered: seq<F>)

  /** Critical sections are single steps. While fread runs, its slot holds anything at any time, and cond_wait can
      return without a broadcast. */
  datatype Action<F> =
    | ProducerCheck | Scribble(junk: F) | ReadDone(junk: F) | ProducerCommit | ProducerStirs
    | ConsumerCall | ConsumerCheck | ConsumerStirs

  ghost predicate Init<F>(s: State<F>) {
    && s.head == s.tail == s.filled == s.released == 0 && !s.eof
    && |s.slots| == SLOTS
    && s.producer == Producer.Check && s.consumer == Idle(false)
    && s.delivered == []
  }

  function WakeProducer(p: Producer): Producer {
    if p == Producer.Sleep then Producer.Check else p
  }

  function WakeConsumer(c: Consumer): Consumer {
    if c == Consumer.Sleep then Consumer.Check else c
  }

  /** 32-bit counters. */
  function Wrap(n: int): nat { n % WRAP }

  function SlotIndex(n: nat): (i: nat)
    ensures i < SLOTS
  {
    n % SLOTS
  }

  lemma WrapNext(n: nat)
    ensures Wrap(Wrap(n) + 1) == Wrap(n + 1)
  {
  }

  /** The unsigned difference tail - head. */
  function Distance(head: nat, tail: nat): nat {
    Wrap(tail - head)
  }

  ghost predicate CanStep<F>(s: State<F>, a: Action<F>) {
    match a
    case ProducerCheck => s.producer == Producer.Check
    case Scribble(_) => s.producer.Reading?
    case ReadDone(_) => s.producer.Reading?
    case ProducerCommit => s.producer.Commit?
    case ConsumerCall => s.consumer.Idle?
    case ConsumerCheck => s.consumer == Consumer.Check
    case ProducerStirs => s.producer == Producer.Sleep
    case ConsumerStirs => s.consumer == Consumer.Sleep
  }

  /** A step that gets something done: no partial read, no spurious return, and no test that leads to sleep. */
  ghost predicate CanProgress<F>(s: State<F>, a: Action<F>) {
    && CanStep(s, a) && !a.Scribble? && !a.ProducerStirs? && !a.ConsumerStirs?
    && (a.ProducerCheck? ==> Distance(s.head, s.tail) != SLOTS)
    && (a.ConsumerCheck? ==> s.tail != s.head || s.eof)
  }

  /** `input` are the whole frames that the pipe delivers before it ends. */
  ghost function Step<F>(input: seq<F>, s: State<F>, a: Action<F>): State<F>
    requires |s.slots| == SLOTS && (s.producer.Reading? ==> s.producer.slot < SLOTS)
  {
    if !CanStep(s, a) then s else
    match a
    case ProducerCheck =>
      if Distance(s.head, s.tail) == SLOTS then s.(producer := Producer.Sleep)
      else s.(producer := Reading(SlotIndex(s.tail)))
    case Scribble(junk) => s.(slots := s.slots[s.producer.slot := junk])
    case ReadDone(junk) =>
      if s.filled < |input| then s.(slots := s.slots[s.producer.slot := input[s.filled]], producer := Commit(true))
      else s.(slots := s.slots[s.producer.slot := junk], producer := Commit(false))
    case ProducerCommit =>
      if s.producer.ok then
        s.(tail := Wrap(s.tail + 1), filled := s.filled + 1, producer := Producer.Check, consumer := WakeConsumer(s.consumer))
      else s.(eof := true, producer := Stopped, consumer := WakeConsumer(s.consumer))
    case ConsumerCall =>
      if s.consumer.taken then
        s.(head := Wrap(s.head + 1), released := s.released + 1, consumer := Consumer.Check, producer := WakeProducer(s.producer))
      else s.(consumer := Consumer.Check)
    case ConsumerCheck =>
      if s.tail == s.head && !s.eof then s.(consumer := Consumer.Sleep)
      else if s.tail != s.head then s.(consumer := Idle(true), delivered := s.delivered + [s.slots[SlotIndex(s.head)]])
      else s.(consumer := Ended)
    case ProducerStirs => s.(producer := Producer.Check)
    case ConsumerStirs => s.(consumer := Consumer.Check)
  }

  ghost predicate Holding<F>(s: State<F>) { s.consumer == Idle(true) }

  /** Frame i of the input is in slot SlotIndex(i), for the frames filled and not yet released. */
  ghost predicate Ring<F>(slots: seq<F>, input: seq<F>, released: nat, filled: nat)
    requires |slots| == SLOTS
  {
    filled <= |input| && forall i :: released <= i < filled ==> slots[SlotIndex(i)] == input[i]
  }

  ghost predicate Inv<F>(input: seq<F>, s: State<F>) {
    && |s.slots| == SLOTS
    // the counters
    && s.head == Wrap(s.released) && s.tail == Wrap(s.filled)
    && s.released <= s.filled <= s.released + SLOTS && s.filled <= |input|
    // the ring
    && Ring(s.slots, input, s.released, s.filled)
    // the producer
    && (s.producer == Producer.Sleep ==> s.filled == s.released + SLOTS)
    && (s.producer.Reading? ==> s.producer.slot == SlotIndex(s.filled) && s.filled < s.released + SLOTS)
    && (s.producer.Commit? && s.producer.ok ==>
          s.filled < |input| && s.filled < s.released + SLOTS && s.slots[SlotIndex(s.filled)] == input[s.filled])
    && (s.producer.Commit? && !s.producer.ok ==> s.filled == |input|)
    && (s.producer == Stopped <==> s.eof)
    && (s.eof ==> s.filled == |input|)
    // the consumer
    && (Holding(s) ==> s.released < s.filled)
    && (s.consumer == Consumer.Sleep ==> s.filled == s.released && !s.eof)
    && (s.consumer == Ended ==> s.eof && s.released == s.filled)
    && s.delivered == input[..s.released + if Holding(s) then 1 else 0]
  }

  lemma InitInv<F>(input: seq<F>, s: State<F>)
    requires Init(s)
    ensures Inv(input, s)
  {
  }

  lemma RingDistance(a: nat, b: nat)
    requires a <= b <= a + SLOTS
    ensures Distance(Wrap(a), Wrap(b)) == b - a
    ensures Wrap(a) == Wrap(b) <==> a == b
  {
  }

  lemma SlotOf(a: nat)
    ensures SlotIndex(Wrap(a)) == SlotIndex(a)
  {
    var q, r := a / WRAP, a % WRAP;
    assert a == 4 * (q * 0x4000_0000) + r;
    WholeTurns(q * 0x4000_0000, r);
  }

  lemma WholeTurns(k: nat, r: nat)
    ensures (4 * k + r) % 4 == r % 4
  {
  }

  lemma SlotsDiffer(a: nat, b: nat)
    requires a < b < a + SLOTS
    ensures SlotIndex(a) != SlotIndex(b)
  {
  }

  /** Writing to the slot of frame `filled` leaves the frames in the ring alone. */
  lemma RingWrite<F>(slots: seq<F>, input: seq<F>, released: nat, filled: nat, x: F)
    requires |slots| == SLOTS && Ring(slots, input, released, filled) && filled < released + SLOTS
    ensures Ring(slots[SlotIndex(filled) := x], input, released, filled)
  {
    forall i | released <= i < filled ensures SlotIndex(i) != SlotIndex(filled) {
      SlotsDiffer(i, filled);
    }
  }

  lemma RingMore<F>(slots: seq<F>, input: seq<F>, released: nat, filled: nat)
    requires |slots| == SLOTS && Ring(slots, input, released, filled) && filled < |input| && slots[SlotIndex(filled)] == input[filled]
    ensures Ring(slots, input, released, filled + 1)
  {
  }

  lemma RingLess<F>(slots: seq<F>, input: seq<F>, released: nat, filled: nat)
    requires |slots| == SLOTS && Ring(slots, input, released, filled) && released < filled
    ensures Ring(slots, input, released + 1, filled) && slots[SlotIndex(released)] == input[released]
  {
  }

  lemma CheckInv<F>(input: seq<F>, s: State<F>)
    requires Inv(input, s)
    ensures Inv(input, Step(input, s, ProducerCheck))
  {
    hide Distance, Ring, Wrap, SlotIndex;
    RingDistance(s.released, s.filled);
    SlotOf(s.filled);
  }

  lemma CommitInv<F>(input: seq<F>, s: State<F>)
    requires Inv(input, s)
    ensures Inv(input, Step(input, s, ProducerCommit))
  {
    hide Distance, Ring, Wrap, SlotIndex;
    WrapNext(s.filled);
    if s.producer == Commit(true) { RingMore(s.slots, input, s.released, s.filled); }
  }

  lemma ReadInv<F>(input: seq<F>, s: State<F>, a: Action<F>)
    requires Inv(input, s) && (a.Scribble? || a.ReadDone?)
    ensures Inv(input, Step(input, s, a))
  {
    hide Distance, Ring, Wrap, SlotIndex;
    if s.producer.Reading? {
      RingWrite(s.slots, input, s.released, s.filled, a.junk);
      if s.filled < |input| { RingWrite(s.slots, input, s.released, s.filled, input[s.filled]); }
    }
  }

  lemma ConsumerInv<F>(input: seq<F>, s: State<F>, a: Action<F>)
    requires Inv(input, s) && (a.ConsumerCall? || a.ConsumerCheck?)
    ensures Inv(input, Step(input, s, a))
  {
    hide Distance, Ring, Wrap, SlotIndex;
    RingDistance(s.released, s.filled);
    SlotOf(s.released);
    WrapNext(s.released);
    if s.released < s.filled { RingLess(s.slots, input, s.released, s.filled); }
  }

  lemma StirsInv<F>(input: seq<F>, s: State<F>, a: Action<F>)
    requires Inv(input, s) && (a.ProducerStirs? || a.ConsumerStirs?)
    ensures Inv(input, Step(input, s, a))
  {
    hide Distance, Ring, Wrap, SlotIndex;
  }

  /** Every step keeps the invariant. */
  lemma StepInv<F>(input: seq<F>, s: State<F>, a: Action<F>)
    requires Inv(input, s)
    ensures Inv(input, Step(input, s, a))
  {
    match a
    case ProducerCheck => CheckInv(input, s);
    case ProducerCommit => CommitInv(input, s);
    case Scribble(_) => ReadInv(input, s, a);
    case ReadDone(_) => ReadInv(input, s, a);
    case ConsumerCall => ConsumerInv(input, s, a);
    case ConsumerCheck => ConsumerInv(input, s, a);
    case ProducerStirs => StirsInv(input, s, a);
    case ConsumerStirs => StirsInv(input, s, a);
  }

  /** The state after any interleaving of steps; a step that is not possible is skipped. */
  ghost function Run<F>(input: seq<F>, s: State<F>, actions: seq<Action<F>>): (t: State<F>)
    requires Inv(input, s)
    ensures Inv(input, t)
    decreases |actions|
  {
    if actions == [] then s else
      StepInv(input, s, actions[0]);
      Run(input, Step(input, s, actions[0]), actions[1..])
  }

  /** In every reachable state the ring holds at most four frames, the slot being filled is not the one that
      the consumer holds, and a held frame is intact. */
  lemma SlotSafety<F>(input: seq<F>, s: State<F>, actions: seq<Action<F>>)
    requires Init(s)
    ensures Inv(input, s)
    ensures var t := Run(input, s, actions);
            && Distance(t.head, t.tail) <= SLOTS
            && (t.producer.Reading? && Holding(t) ==> t.producer.slot != SlotIndex(t.head))
            && (Holding(t) ==> t.delivered != [] && t.slots[SlotIndex(t.head)] == t.delivered[|t.delivered| - 1])
  {
    InitInv(input, s);
    var t := Run(input, s, actions);
    hide Run;
    RingDistance(t.released, t.filled);
    SlotOf(t.released);
    if t.producer.Reading? && Holding(t) { SlotsDiffer(t.released, t.filled); }
    hide Distance;
  }

  /** Frames are delivered once each and in order; NULL comes only after end of input, with every frame delivered. */
  lemma InOrder<F>(input: seq<F>, s: State<F>, actions: seq<Action<F>>)
    requires Init(s)
    ensures Inv(input, s)
    ensures var t := Run(input, s, actions);
            t.delivered <= input && (t.consumer == Ended ==> t.eof && t.delivered == input)
  {
    InitInv(input, s);
    var t := Run(input, s, actions);
    hide Run, Distance;
    assert input[..|input|] == input;
  }

  ghost predicate Finished<F>(s: State<F>) { s.producer == Stopped && s.consumer == Ended }

  /** Unless both threads are finished, one of them can get something done. */
  ghost predicate NotStuck<F>(s: State<F>, junk: F) {
    || Finished(s) || CanProgress(s, ProducerCheck) || CanProgress(s, ReadDone(junk)) || CanProgress(s, ProducerCommit)
    || CanProgress(s, ConsumerCall) || CanProgress(s, ConsumerCheck)
  }

  lemma InvNotStuck<F>(input: seq<F>, s: State<F>, junk: F)
    requires Inv(input, s)
    ensures NotStuck(s, junk)
  {
    RingDistance(s.released, s.filled);
    hide Ring, Wrap, SlotIndex, Distance;
  }

  /** No wake-up is lost: whenever one of them still has something to do, this does not take a spurious return. */
  lemma NoDeadlock<F>(input: seq<F>, s: State<F>, actions: seq<Action<F>>, junk: F)
    requires Init(s)
    ensures Inv(input, s) && NotStuck(Run(input, s, actions), junk)
  {
    InitInv(input, s);
    InvNotStuck(input, Run(input, s, actions), junk);
  }

  // ---- termination ----

  ghost function ProducerWeight(p: Producer): nat {
    match p
    case Check => 5
    case Sleep => 5
    case Reading(_) => 3
    case Commit(_) => 2
    case Stopped => 0
  }

  ghost function ConsumerWeight(c: Consumer): nat {
    match c
    case Idle(_) => 4
    case Check => 2
    case Sleep => 2
    case Ended => 0
  }

  ghost function Measure<F>(input: seq<F>, s: State<F>): nat
    requires Inv(input, s)
  {
    5 * (|input| - s.filled) + 5 * (|input| - |s.delivered|) + ProducerWeight(s.producer) + ConsumerWeight(s.consumer)
  }

  lemma StepDecreases<F>(input: seq<F>, s: State<F>, a: Action<F>)
    requires Inv(input, s) && CanStep(s, a)
    ensures Inv(input, Step(input, s, a))
    ensures if CanProgress(s, a) then Measure(input, Step(input, s, a)) < Measure(input, s)
            else Measure(input, Step(input, s, a)) == Measure(input, s)
  {
    StepInv(input, s, a);
    RingDistance(s.released, s.filled);
    hide Distance;
  }

  /** The steps of a run that got something done. */
  ghost function Progress<F>(input: seq<F>, s: State<F>, actions: seq<Action<F>>): nat
    requires Inv(input, s)
    decreases |actions|
  {
    if actions == [] then 0 else
      StepInv(input, s, actions[0]);
      (if CanProgress(s, actions[0]) then 1 else 0) +
      Progress(input, Step(input, s, actions[0]), actions[1..])
  }

  lemma {:induction false} ProgressBound<F>(input: seq<F>, s: State<F>, actions: seq<Action<F>>)
    requires Inv(input, s)
    ensures Progress(input, s, actions) <= Measure(input, s)
    decreases |actions|
  {
    if actions != [] {
      StepInv(input, s, actions[0]);
      if CanStep(s, actions[0]) { StepDecreases(input, s, actions[0]); }
      hide Inv, Measure;
      ProgressBound(input, Step(input, s, actions[0]), actions[1..]);
    }
  }

  /** Every run ends: no more than 10n + 9 steps make progress. */
  lemma Termination<F>(input: seq<F>, s: State<F>, actions: seq<Action<F>>)
    requires Init(s)
    ensures Inv(input, s) && Progress(input, s, actions) <= 10 * |input| + 9
  {
    InitInv(input, s);
    ProgressBound(input, s, actions);
  }

  // ---- fair runs ----

  ghost function Flat<F>(rounds: seq<seq<Action<F>>>): seq<Action<F>> {
    if rounds == [] then [] else Flat(rounds[..|rounds| - 1]) + rounds[|rounds| - 1]
  }

  /** Both threads have a turn at everything they may be about to do. */
  ghost predicate Fair<F>(round: seq<Action<F>>) {
    && ProducerCheck in round && ProducerCommit in round && ConsumerCall in round && ConsumerCheck in round
    && exists k :: 0 <= k < |round| && round[k].ReadDone?
  }

  lemma {:induction false} RunConcat<F>(input: seq<F>, s: State<F>, a: seq<Action<F>>, b: seq<Action<F>>)
    requires Inv(input, s)
    ensures Inv(input, Run(input, s, a))
    ensures Run(input, s, a + b) == Run(input, Run(input, s, a), b)
    ensures Progress(input, s, a + b) == Progress(input, s, a) + Progress(input, Run(input, s, a), b)
    decreases |a|
  {
    if a == [] {
      assert a + b == b;
    } else {
      assert (a + b)[1..] == a[1..] + b;
      StepInv(input, s, a[0]);
      hide Inv, Step, CanProgress;
      RunConcat(input, Step(input, s, a[0]), a[1..], b);
    }
  }

  /** A step that gets nothing done leaves the others what they can do. */
  lemma StillPossible<F>(input: seq<F>, s: State<F>, b: Action<F>, a: Action<F>)
    requires Inv(input, s) && !CanProgress(s, b) && CanProgress(s, a)
    ensures CanProgress(Step(input, s, b), a)
  {
    hide Ring, Wrap, SlotIndex, Distance;
  }

  /** In a round without progress nothing that had a turn could be done. */
  lemma {:induction false} IdleTurn<F>(input: seq<F>, s: State<F>, round: seq<Action<F>>, a: Action<F>)
    requires Inv(input, s) && Progress(input, s, round) == 0 && a in round
    ensures !CanProgress(s, a)
    decreases |round|
  {
    if round[0] != a {
      StepInv(input, s, round[0]);
      hide Inv, CanProgress, Step;
      IdleTurn(input, Step(input, s, round[0]), round[1..], a);
      if CanProgress(s, a) { StillPossible(input, s, round[0], a); }
    }
  }

  lemma IdleRound<F>(input: seq<F>, s: State<F>, round: seq<Action<F>>)
    requires Inv(input, s) && Fair(round) && Progress(input, s, round) == 0
    ensures Finished(s)
  {
    var k :| 0 <= k < |round| && round[k].ReadDone?;
    var junk := round[k].junk;
    InvNotStuck(input, s, junk);
    hide Inv, CanProgress, Progress;
    IdleTurn(input, s, round, ProducerCheck);
    IdleTurn(input, s, round, ProducerCommit);
    IdleTurn(input, s, round, ConsumerCall);
    IdleTurn(input, s, round, ConsumerCheck);
    IdleTurn(input, s, round, ReadDone(junk));
  }

  lemma {:induction false} FinishedStays<F>(input: seq<F>, s: State<F>, actions: seq<Action<F>>)
    requires Inv(input, s) && Finished(s)
    ensures Finished(Run(input, s, actions))
    decreases |actions|
  {
    if actions != [] {
      assert Step(input, s, actions[0]) == s;
      FinishedStays(input, s, actions[1..]);
    }
  }

  /** Every fair round makes progress until both threads are finished. */
  lemma {:induction false} FairRounds<F>(input: seq<F>, s: State<F>, rounds: seq<seq<Action<F>>>)
    requires Inv(input, s) && forall k :: 0 <= k < |rounds| ==> Fair(rounds[k])
    ensures Progress(input, s, Flat(rounds)) >= |rounds| || Finished(Run(input, s, Flat(rounds)))
    decreases |rounds|
  {
    hide Inv, Run, Progress, Fair, Finished;
    if rounds != [] {
      var before, last := Flat(rounds[..|rounds| - 1]), rounds[|rounds| - 1];
      FairRounds(input, s, rounds[..|rounds| - 1]);
      RunConcat(input, s, before, last);
      var t := Run(input, s, before);
      if Progress(input, t, last) == 0 { IdleRound(input, t, last); }
      if Finished(t) { FinishedStays(input, t, last); }
    }
  }

  /** Every run of 10n + 10 fair rounds ends with both threads finished and every frame delivered in order. */
  lemma FairCompletion<F>(input: seq<F>, s: State<F>, rounds: seq<seq<Action<F>>>)
    requires Init(s) && |rounds| >= 10 * |input| + 10 && forall k :: 0 <= k < |rounds| ==> Fair(rounds[k])
    ensures Inv(input, s) && Finished(Run(input, s, Flat(rounds))) && Run(input, s, Flat(rounds)).delivered == input
  {
    InitInv(input, s);
    hide Inv, Run, Progress, Fair, Init;
    FairRounds(input, s, rounds);
    Termination(input, s, Flat(rounds));
    InOrder(input, s, Flat(rounds));
  }
}
