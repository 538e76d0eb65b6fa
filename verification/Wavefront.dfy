/** The macroblock wavefront of mosmedia: workers take rows from an atomic counter and encode each row from
    left to right, two macroblocks behind the row above. Any number of workers, any interleaving. */
module Wavefront {

  import opened Options

  /** What mmc_encode_mb reads: the results of the neighbours that exist. */
  datatype Hood<+R> = Hood(left: Option<R>, aboveLeft: Option<R>, above: Option<R>, aboveRight: Option<R>)

  type Cell = (int, int)

  /** A frame of w by h macroblocks, the encoder of one of them, and what its cell holds while it is being encoded. */
  datatype Job<!R> = Job(w: nat, h: nat, encode: (nat, nat, Hood<R>) -> R, torn: (nat, nat, map<Cell, R>) -> R)

  ghost predicate Inside<R>(job: Job<R>, x: int, y: int) {
    0 <= x < job.w && 0 <= y < job.h
  }

  // ---- the sequential result ----

  /** The result of macroblock (x, y) when the frame is encoded in raster order. */
  ghost function Raster<R>(job: Job<R>, x: nat, y: nat): R
    requires Inside(job, x, y)
    decreases y, x
  {
    job.encode(x, y, Hood(
      if x > 0 then Some(Raster(job, x - 1, y)) else None,
      if x > 0 && y > 0 then Some(Raster(job, x - 1, y - 1)) else None,
      if y > 0 then Some(Raster(job, x, y - 1)) else None,
      if x + 1 < job.w && y > 0 then Some(Raster(job, x + 1, y - 1)) else None))
  }

  /** The results once every macroblock before (x, y) in raster order was encoded, one after the other. */
  ghost function Sweep<R>(job: Job<R>, results: map<Cell, R>, x: nat, y: nat): map<Cell, R>
    decreases y, x
  {
    if x > 0 then
      var r := Sweep(job, results, x - 1, y);
      r[(x - 1, y) := job.encode(x - 1, y, ReadHood(job, r, x - 1, y))]
    else if y > 0 then Sweep(job, results, job.w, y - 1)
    else results
  }

  /** Raster order is what Raster says, whatever the results were before. */
  lemma {:induction false} SweepIsRaster<R>(job: Job<R>, results: map<Cell, R>, x: nat, y: nat)
    requires x <= job.w && y <= job.h && (y == job.h ==> x == 0)
    ensures forall i, j :: Inside(job, i, j) && (j < y || (j == y && i < x)) ==>
                           Correct(job, Sweep(job, results, x, y), i, j)
    decreases y, x
  {
    if x > 0 {
      SweepIsRaster(job, results, x - 1, y);
      var r := Sweep(job, results, x - 1, y);
      assert ReadHood(job, r, x - 1, y) == Hood(
        if x > 1 then Some(Raster(job, x - 2, y)) else None,
        if x > 1 && y > 0 then Some(Raster(job, x - 2, y - 1)) else None,
        if y > 0 then Some(Raster(job, x - 1, y - 1)) else None,
        if x < job.w && y > 0 then Some(Raster(job, x, y - 1)) else None) by {
        assert x > 1 ==> Correct(job, r, x - 2, y);
        assert x > 1 && y > 0 ==> Correct(job, r, x - 2, y - 1);
        assert y > 0 ==> Correct(job, r, x - 1, y - 1);
        assert x < job.w && y > 0 ==> Correct(job, r, x, y - 1);
      }
    } else if y > 0 {
      SweepIsRaster(job, results, job.w, y - 1);
    }
  }

  // ---- the protocol ----

  /** Where a worker is in wavefront_worker. */
  datatype Phase =
    | Fetch                        // about to take a row
    | Wait(row: nat, mx: nat)      // spinning on the row above
    | Encode(row: nat, mx: nat)    // inside mmc_encode_mb
    | Publish(row: nat, mx: nat)   // about to store the row's progress
    | Exit
  {
    ghost predicate Holds(y: int) { !Fetch? && !Exit? && row == y }
  }

  /** `results` starts with whatever the previous frame left; `log` records every macroblock encoded. */
  datatype State<R> = State(next: nat, done: seq<nat>, results: map<Cell, R>, workers: seq<Phase>, log: seq<Cell>)

  ghost predicate Init<R>(job: Job<R>, s: State<R>) {
    && s.next == 0
    && |s.done| == job.h && (forall y :: 0 <= y < job.h ==> s.done[y] == 0)
    && (forall x, y :: Inside(job, x, y) ==> (x, y) in s.results)
    && (forall i :: 0 <= i < |s.workers| ==> s.workers[i] == Fetch)
    && s.log == []
  }

  /** How far the row above must be. */
  ghost function Need<R>(job: Job<R>, mx: nat): nat {
    if mx + 2 < job.w then mx + 2 else job.w
  }

  ghost function Read<R>(job: Job<R>, results: map<Cell, R>, x: int, y: int): Option<R> {
    if Inside(job, x, y) && (x, y) in results then Some(results[(x, y)]) else None
  }

  ghost function ReadHood<R>(job: Job<R>, results: map<Cell, R>, x: nat, y: nat): Hood<R> {
    Hood(Read(job, results, x - 1, y), Read(job, results, x - 1, y - 1),
         Read(job, results, x, y - 1), Read(job, results, x + 1, y - 1))
  }

  /** Worker i can take a step: it is not spinning and has not left. */
  ghost predicate Enabled<R>(job: Job<R>, s: State<R>, i: nat)
    requires i < |s.workers|
  {
    match s.workers[i]
    case Wait(row, mx) => row == 0 || (row - 1 < |s.done| && s.done[row - 1] >= Need(job, mx))
    case Exit => false
    case _ => true
  }

  ghost function AfterFetch<R>(job: Job<R>, row: nat): Phase {
    if row >= job.h then Exit else StartOrNext(job, row, 0)
  }

  /** The head of the loop over mx. */
  ghost function StartOrNext<R>(job: Job<R>, row: nat, mx: nat): Phase {
    if mx < job.w then Wait(row, mx) else Fetch
  }

  /** The step of worker i. */
  ghost function Next<R>(job: Job<R>, s: State<R>, i: nat): State<R>
    requires i < |s.workers| && Enabled(job, s, i)
    requires s.workers[i].Publish? ==> s.workers[i].row < |s.done|
  {
    match s.workers[i]
    case Fetch => s.(next := s.next + 1, workers := s.workers[i := AfterFetch(job, s.next)])
    case Wait(row, mx) =>
      s.(results := s.results[(mx, row) := job.torn(mx, row, s.results)], workers := s.workers[i := Encode(row, mx)])
    case Encode(row, mx) =>
      s.(results := s.results[(mx, row) := job.encode(mx, row, ReadHood(job, s.results, mx, row))],
         log := s.log + [(mx, row)],
         workers := s.workers[i := Publish(row, mx)])
    case Publish(row, mx) =>
      s.(done := s.done[row := mx + 1], workers := s.workers[i := StartOrNext(job, row, mx + 1)])
    case Exit => s
  }

  // ---- the invariant ----

  /** Row y has at most one worker, and its progress is where that worker stands. */
  ghost predicate WorkerOk<R>(job: Job<R>, s: State<R>, i: nat)
    requires i < |s.workers| && |s.done| == job.h
  {
    match s.workers[i]
    case Fetch => true
    case Exit => s.next > job.h
    case Wait(row, mx) => row < job.h && row < s.next && mx < job.w && s.done[row] == mx
    case Encode(row, mx) =>
      && row < job.h && row < s.next && mx < job.w && s.done[row] == mx
      && (row > 0 ==> s.done[row - 1] >= Need(job, mx))
    case Publish(row, mx) =>
      && row < job.h && row < s.next && mx < job.w && s.done[row] == mx
      && Correct(job, s.results, mx, row)
  }

  ghost predicate Correct<R>(job: Job<R>, results: map<Cell, R>, x: int, y: int) {
    Inside(job, x, y) && (x, y) in results && results[(x, y)] == Raster(job, x, y)
  }

  ghost predicate Distinct(workers: seq<Phase>) {
    forall i, j, y :: 0 <= i < j < |workers| && workers[i].Holds(y) ==> !workers[j].Holds(y)
  }

  ghost predicate Held(workers: seq<Phase>, y: int) {
    exists i :: 0 <= i < |workers| && workers[i].Holds(y)
  }

  ghost predicate RowOk<R>(job: Job<R>, s: State<R>, y: nat)
    requires y < job.h && |s.done| == job.h
  {
    && s.done[y] <= job.w
    && (y >= s.next ==> s.done[y] == 0)
    && (y < s.next && s.done[y] < job.w ==> Held(s.workers, y))
    && forall x :: 0 <= x < s.done[y] ==> Correct(job, s.results, x, y)
  }

  ghost predicate Inv<R>(job: Job<R>, s: State<R>) {
    && |s.done| == job.h
    && (forall i :: 0 <= i < |s.workers| ==> WorkerOk(job, s, i))
    && Distinct(s.workers)
    && (forall y :: 0 <= y < job.h ==> RowOk(job, s, y))
  }

  lemma InitInv<R>(job: Job<R>, s: State<R>)
    requires Init(job, s)
    ensures Inv(job, s)
  {
  }

  ghost predicate Finished<R>(s: State<R>, x: int, y: int) {
    0 <= y < |s.done| && x < s.done[y]
  }

  /** A macroblock is encoded only when its left, above-left, above and above-right neighbours are finished. */
  lemma NeighboursFinished<R>(job: Job<R>, s: State<R>, i: nat)
    requires Inv(job, s) && i < |s.workers| && s.workers[i].Encode?
    ensures var x, y := s.workers[i].mx, s.workers[i].row;
            && Inside(job, x, y)
            && (x > 0 ==> Finished(s, x - 1, y))
            && (x > 0 && y > 0 ==> Finished(s, x - 1, y - 1))
            && (y > 0 ==> Finished(s, x, y - 1))
            && (x + 1 < job.w && y > 0 ==> Finished(s, x + 1, y - 1))
  {
    assert WorkerOk(job, s, i);
  }

  lemma FinishedCorrect<R>(job: Job<R>, s: State<R>, x: nat, y: nat)
    requires Inv(job, s) && Finished(s, x, y)
    ensures Correct(job, s.results, x, y)
  {
    assert RowOk(job, s, y);
  }

  /** Hence what it writes is the sequential result. */
  lemma EncodesRaster<R>(job: Job<R>, s: State<R>, i: nat)
    requires Inv(job, s) && i < |s.workers| && s.workers[i].Encode?
    ensures var x, y := s.workers[i].mx, s.workers[i].row;
            Inside(job, x, y) && job.encode(x, y, ReadHood(job, s.results, x, y)) == Raster(job, x, y)
  {
    NeighboursFinished(job, s, i);
    hide Inv;
    var x, y := s.workers[i].mx, s.workers[i].row;
    if x > 0 { FinishedCorrect(job, s, x - 1, y); }
    if x > 0 && y > 0 { FinishedCorrect(job, s, x - 1, y - 1); }
    if y > 0 { FinishedCorrect(job, s, x, y - 1); }
    if x + 1 < job.w && y > 0 { FinishedCorrect(job, s, x + 1, y - 1); }
  }

  // ---- every step keeps the invariant ----

  /** Worker i moves on in the row it holds, or nothing changes about who holds what. */
  lemma HeldKept(workers: seq<Phase>, i: nat, p: Phase)
    requires i < |workers| && Distinct(workers)
    requires forall y :: p.Holds(y) ==> workers[i].Holds(y)
    ensures Distinct(workers[i := p])
    ensures forall y :: Held(workers, y) && !workers[i].Holds(y) ==> Held(workers[i := p], y)
    ensures forall y :: p.Holds(y) ==> Held(workers[i := p], y)
  {
    var u := workers[i := p];
    assert u[i] == p;
    forall y | Held(workers, y) && !workers[i].Holds(y) ensures Held(u, y) {
      var j :| 0 <= j < |workers| && workers[j].Holds(y);
      assert u[j].Holds(y);
    }
  }

  lemma FetchInv<R>(job: Job<R>, s: State<R>, i: nat)
    requires Inv(job, s) && i < |s.workers| && s.workers[i].Fetch?
    ensures Inv(job, Next(job, s, i))
  {
    var t := Next(job, s, i);
    forall j | 0 <= j < |t.workers| ensures WorkerOk(job, t, j) {
      assert WorkerOk(job, s, j);
      if j == i && s.next < job.h { assert RowOk(job, s, s.next); }
    }
    forall j | 0 <= j < |s.workers| ensures !s.workers[j].Holds(s.next) {
      assert WorkerOk(job, s, j);
    }
    forall y | 0 <= y < job.h ensures RowOk(job, t, y) {
      assert RowOk(job, s, y);
      if Held(s.workers, y) {
        var j :| 0 <= j < |s.workers| && s.workers[j].Holds(y);
        assert t.workers[j].Holds(y);
      }
      if y == s.next { assert job.w > 0 ==> t.workers[i].Holds(y); }
    }
  }

  lemma WaitInv<R>(job: Job<R>, s: State<R>, i: nat)
    requires Inv(job, s) && i < |s.workers| && s.workers[i].Wait? && Enabled(job, s, i)
    ensures Inv(job, Next(job, s, i))
  {
    var t := Next(job, s, i);
    assert WorkerOk(job, s, i);
    HeldKept(s.workers, i, t.workers[i]);
    assert t.workers[i].Holds(s.workers[i].row);
    hide Raster;
    forall j | 0 <= j < |t.workers| ensures WorkerOk(job, t, j) {
      assert WorkerOk(job, s, j);
      if j != i { assert !s.workers[j].Holds(s.workers[i].row); }
    }
    forall y | 0 <= y < job.h ensures RowOk(job, t, y) {
      assert RowOk(job, s, y);
      assert forall x :: 0 <= x < s.done[y] ==> Correct(job, s.results, x, y) && (x, y) != (s.workers[i].mx, s.workers[i].row);
    }
  }

  lemma EncodeInv<R>(job: Job<R>, s: State<R>, i: nat)
    requires Inv(job, s) && i < |s.workers| && s.workers[i].Encode?
    ensures Inv(job, Next(job, s, i))
  {
    var t := Next(job, s, i);
    assert WorkerOk(job, s, i);
    EncodesRaster(job, s, i);
    HeldKept(s.workers, i, t.workers[i]);
    assert t.workers[i].Holds(s.workers[i].row);
    hide Raster, ReadHood;
    forall j | 0 <= j < |t.workers| ensures WorkerOk(job, t, j) {
      assert WorkerOk(job, s, j);
    }
    forall y | 0 <= y < job.h ensures RowOk(job, t, y) {
      assert RowOk(job, s, y);
      assert forall x :: 0 <= x < s.done[y] ==> Correct(job, s.results, x, y) && (x, y) != (s.workers[i].mx, s.workers[i].row);
    }
  }

  lemma PublishInv<R>(job: Job<R>, s: State<R>, i: nat)
    requires Inv(job, s) && i < |s.workers| && s.workers[i].Publish?
    ensures s.workers[i].row < |s.done| && Inv(job, Next(job, s, i))
  {
    assert WorkerOk(job, s, i);
    var t := Next(job, s, i);
    HeldKept(s.workers, i, t.workers[i]);
    hide Raster;
    forall j | 0 <= j < |t.workers| ensures WorkerOk(job, t, j) {
      assert WorkerOk(job, s, j);
      if j != i { assert !s.workers[j].Holds(s.workers[i].row); }
    }
    forall y | 0 <= y < job.h ensures RowOk(job, t, y) {
      assert RowOk(job, s, y);
    }
  }

  // ---- each macroblock is encoded exactly once ----

  ghost predicate Publishing(workers: seq<Phase>, x: int, y: int) {
    exists i :: 0 <= i < |workers| && workers[i].Publish? && workers[i].mx == x && workers[i].row == y
  }

  ghost predicate Logged<R>(s: State<R>, x: int, y: int) {
    0 <= x && 0 <= y < |s.done| && (x < s.done[y] || Publishing(s.workers, x, y))
  }

  ghost predicate LogInv<R>(s: State<R>) {
    forall x, y :: multiset(s.log)[(x, y)] == if Logged(s, x, y) then 1 else 0
  }

  lemma PublishingUpdate(workers: seq<Phase>, i: nat, p: Phase, x: int, y: int)
    requires i < |workers| && Distinct(workers)
    requires forall z :: p.Holds(z) ==> workers[i].Holds(z) || !Held(workers, z)
    ensures Publishing(workers[i := p], x, y) <==>
            (p.Publish? && p.mx == x && p.row == y) ||
            (Publishing(workers, x, y) && !(workers[i].Publish? && workers[i].row == y))
  {
    var u := workers[i := p];
    if Publishing(workers, x, y) {
      var j :| 0 <= j < |workers| && workers[j].Publish? && workers[j].mx == x && workers[j].row == y;
      assert workers[j].Holds(y) && u[j] == if j == i then p else workers[j];
      if workers[i].Holds(y) { assert j == i; }
    }
    if p.Publish? && p.mx == x && p.row == y { assert u[i] == p; }
    if Publishing(u, x, y) && !(p.Publish? && p.mx == x && p.row == y) {
      var j :| 0 <= j < |u| && u[j].Publish? && u[j].mx == x && u[j].row == y;
      assert workers[j].Holds(y) && workers[j] == u[j];
    }
  }

  /** The phase that worker i enters. */
  ghost function Enters<R>(job: Job<R>, s: State<R>, i: nat): Phase
    requires i < |s.workers| && Enabled(job, s, i)
  {
    match s.workers[i]
    case Fetch => AfterFetch(job, s.next)
    case Wait(row, mx) => Encode(row, mx)
    case Encode(row, mx) => Publish(row, mx)
    case Publish(row, mx) => StartOrNext(job, row, mx + 1)
    case Exit => Exit
  }

  /** The rows that are being worked on have been handed out. */
  lemma HeldBeforeNext<R>(job: Job<R>, s: State<R>, z: int)
    requires Inv(job, s) && Held(s.workers, z)
    ensures z < s.next
  {
    hide RowOk, Correct, Need;
    var j :| 0 <= j < |s.workers| && s.workers[j].Holds(z);
    assert WorkerOk(job, s, j);
  }

  lemma LogStep<R>(job: Job<R>, s: State<R>, i: nat)
    requires Inv(job, s) && LogInv(s) && i < |s.workers| && Enabled(job, s, i)
    ensures s.workers[i].Publish? ==> s.workers[i].row < |s.done|
    ensures LogInv(Next(job, s, i))
  {
    hide RowOk, Correct, Raster, ReadHood;
    assert WorkerOk(job, s, i);
    var t, p := Next(job, s, i), Enters(job, s, i);
    assert t.workers == s.workers[i := p];
    forall z | p.Holds(z) ensures s.workers[i].Holds(z) || !Held(s.workers, z) {
      if s.workers[i].Fetch? && Held(s.workers, z) { HeldBeforeNext(job, s, z); }
    }
    forall x, y ensures multiset(t.log)[(x, y)] == if Logged(t, x, y) then 1 else 0 {
      PublishingUpdate(s.workers, i, p, x, y);
      LogCell(job, s, i, x, y);
    }
  }

  lemma LogCell<R>(job: Job<R>, s: State<R>, i: nat, x: int, y: int)
    requires Inv(job, s) && LogInv(s) && i < |s.workers| && Enabled(job, s, i)
    requires s.workers[i].Publish? ==> s.workers[i].row < |s.done|
    requires var p := Enters(job, s, i);
             Publishing(s.workers[i := p], x, y) <==>
             (p.Publish? && p.mx == x && p.row == y) ||
             (Publishing(s.workers, x, y) && !(s.workers[i].Publish? && s.workers[i].row == y))
    ensures multiset(Next(job, s, i).log)[(x, y)] == if Logged(Next(job, s, i), x, y) then 1 else 0
  {
    hide Raster, ReadHood, Correct, RowOk;
    assert WorkerOk(job, s, i);
    var t := Next(job, s, i);
    assert multiset(s.log)[(x, y)] == if Logged(s, x, y) then 1 else 0;
    if Publishing(s.workers, x, y) {
      var j :| 0 <= j < |s.workers| && s.workers[j].Publish? && s.workers[j].mx == x && s.workers[j].row == y;
      assert s.workers[j].Holds(y) && WorkerOk(job, s, j);
      if s.workers[i].Holds(y) { assert j == i; }
    }
  }

  lemma InitLog<R>(job: Job<R>, s: State<R>)
    requires Init(job, s)
    ensures LogInv(s)
  {
  }

  // ---- runs ----

  /** One turn of worker i. A spinning worker, or one that has left, changes nothing. */
  ghost function Step<R>(job: Job<R>, s: State<R>, i: nat): State<R> {
    if i < |s.workers| && Enabled(job, s, i) && (s.workers[i].Publish? ==> s.workers[i].row < |s.done|)
    then Next(job, s, i) else s
  }

  /** The state after the workers took turns in the order of the schedule. */
  ghost function Run<R>(job: Job<R>, s: State<R>, schedule: seq<nat>): State<R>
    decreases |schedule|
  {
    if schedule == [] then s else Run(job, Step(job, s, schedule[0]), schedule[1..])
  }

  lemma StepInv<R>(job: Job<R>, s: State<R>, i: nat)
    requires Inv(job, s) && LogInv(s)
    ensures Inv(job, Step(job, s, i)) && LogInv(Step(job, s, i))
  {
    if i < |s.workers| && Enabled(job, s, i) {
      LogStep(job, s, i);
      match s.workers[i]
      case Fetch => FetchInv(job, s, i);
      case Wait(_, _) => WaitInv(job, s, i);
      case Encode(_, _) => EncodeInv(job, s, i);
      case Publish(_, _) => PublishInv(job, s, i);
    }
  }

  lemma {:induction false} RunInv<R>(job: Job<R>, s: State<R>, schedule: seq<nat>)
    requires Inv(job, s) && LogInv(s)
    ensures Inv(job, Run(job, s, schedule)) && LogInv(Run(job, s, schedule))
    ensures |Run(job, s, schedule).workers| == |s.workers|
    decreases |schedule|
  {
    if schedule != [] {
      StepInv(job, s, schedule[0]);
      RunInv(job, Step(job, s, schedule[0]), schedule[1..]);
    }
  }

  // ---- progress ----

  /** A worker that holds a row is not stuck for good: itself, or one in a row above, can move. */
  lemma {:induction false} SomeoneMoves<R>(job: Job<R>, s: State<R>, i: nat) returns (j: nat)
    requires Inv(job, s) && i < |s.workers| && !s.workers[i].Exit?
    ensures j < |s.workers| && Enabled(job, s, j)
    decreases if s.workers[i].Wait? then s.workers[i].row else 0
  {
    j := i;
    assert WorkerOk(job, s, i);
    if s.workers[i].Wait? && !Enabled(job, s, i) {
      var y := s.workers[i].row - 1;
      assert RowOk(job, s, y);
      j :| 0 <= j < |s.workers| && s.workers[j].Holds(y);
      j := SomeoneMoves(job, s, j);
    }
  }

  ghost predicate AtRest<R>(job: Job<R>, s: State<R>) {
    forall i :: 0 <= i < |s.workers| ==> !Enabled(job, s, i)
  }

  /** No deadlock: while a worker has not left, some worker can move. When none can, all rows are complete. */
  lemma NoDeadlock<R>(job: Job<R>, s: State<R>)
    requires Inv(job, s) && s.workers != []
    requires AtRest(job, s)
    ensures forall i :: 0 <= i < |s.workers| ==> s.workers[i].Exit?
    ensures forall y :: 0 <= y < job.h ==> s.done[y] == job.w
  {
    forall i | 0 <= i < |s.workers| ensures s.workers[i].Exit? {
      if !s.workers[i].Exit? { var j := SomeoneMoves(job, s, i); }
    }
    assert WorkerOk(job, s, 0);
    forall y | 0 <= y < job.h ensures s.done[y] == job.w {
      assert RowOk(job, s, y);
    }
  }

  /** Confluence: however the turns are dealt, a run that has come to rest left the results of sequential
      raster-order encoding, and encoded every macroblock exactly once. */
  lemma Confluence<R>(job: Job<R>, s: State<R>, schedule: seq<nat>)
    requires Init(job, s) && s.workers != []
    requires AtRest(job, Run(job, s, schedule))
    ensures forall x, y :: Inside(job, x, y) ==> Correct(job, Run(job, s, schedule).results, x, y)
    ensures forall x, y :: multiset(Run(job, s, schedule).log)[(x, y)] == if Inside(job, x, y) then 1 else 0
  {
    InitInv(job, s);
    InitLog(job, s);
    RunInv(job, s, schedule);
    var t := Run(job, s, schedule);
    hide Run;
    NoDeadlock(job, t);
    forall x, y | Inside(job, x, y) ensures Correct(job, t.results, x, y) {
      FinishedCorrect(job, t, x, y);
    }
    forall x, y ensures multiset(t.log)[(x, y)] == if Inside(job, x, y) then 1 else 0 {
      assert multiset(t.log)[(x, y)] == if Logged(t, x, y) then 1 else 0;
      assert !Publishing(t.workers, x, y);
    }
  }

  // ---- termination: the number of moves is the same in every run ----

  ghost function Sum(xs: seq<int>): int {
    if xs == [] then 0 else Sum(xs[..|xs| - 1]) + xs[|xs| - 1]
  }

  lemma {:induction false} SumUpdate(xs: seq<int>, i: nat, v: int)
    requires i < |xs|
    ensures Sum(xs[i := v]) == Sum(xs) - xs[i] + v
  {
    var n := |xs| - 1;
    if i == n {
      assert xs[i := v][..n] == xs[..n];
    } else {
      assert xs[i := v][..n] == xs[..n][i := v];
      SumUpdate(xs[..n], i, v);
    }
  }

  lemma {:induction false} SumConst(xs: seq<int>, c: int)
    requires forall i :: 0 <= i < |xs| ==> xs[i] == c
    ensures Sum(xs) == |xs| * c
  {
    if xs != [] { SumConst(xs[..|xs| - 1], c); }
  }

  lemma {:induction false} SumRange(xs: seq<int>, hi: int)
    requires forall i :: 0 <= i < |xs| ==> 0 <= xs[i] <= hi
    ensures 0 <= Sum(xs) <= |xs| * hi
  {
    if xs != [] { SumRange(xs[..|xs| - 1], hi); }
  }

  /** Moves left in the current macroblock, of three: pass the wait, encode, publish. */
  ghost function Left(p: Phase): int {
    match p
    case Encode(_, _) => 1
    case Publish(_, _) => 0
    case _ => 2
  }

  ghost function Lefts(workers: seq<Phase>): seq<int> {
    seq(|workers|, i requires 0 <= i < |workers| => Left(workers[i]))
  }

  ghost function Exits(workers: seq<Phase>): seq<int> {
    seq(|workers|, i requires 0 <= i < |workers| => if workers[i].Exit? then 1 else 0)
  }

  ghost function Undone<R>(job: Job<R>, done: seq<nat>): seq<int> {
    seq(|done|, y requires 0 <= y < |done| => job.w - done[y])
  }

  /** The counter passes the last row once for each worker that leaves. */
  ghost predicate CountInv<R>(job: Job<R>, s: State<R>) {
    Sum(Exits(s.workers)) == if s.next <= job.h then 0 else s.next - job.h
  }

  ghost function Measure<R>(job: Job<R>, s: State<R>): int {
    (job.h + |s.workers| - s.next) + 3 * Sum(Undone(job, s.done)) + Sum(Lefts(s.workers))
  }

  lemma SumsUpdate(workers: seq<Phase>, i: nat, p: Phase)
    requires i < |workers|
    ensures Sum(Lefts(workers[i := p])) == Sum(Lefts(workers)) - Left(workers[i]) + Left(p)
    ensures Sum(Exits(workers[i := p])) ==
            Sum(Exits(workers)) - (if workers[i].Exit? then 1 else 0) + (if p.Exit? then 1 else 0)
  {
    assert Lefts(workers[i := p]) == Lefts(workers)[i := Left(p)];
    SumUpdate(Lefts(workers), i, Left(p));
    assert Exits(workers[i := p]) == Exits(workers)[i := if p.Exit? then 1 else 0];
    SumUpdate(Exits(workers), i, if p.Exit? then 1 else 0);
  }

  /** Every move takes exactly one from the measure. */
  lemma MoveCounts<R>(job: Job<R>, s: State<R>, i: nat)
    requires Inv(job, s) && CountInv(job, s) && i < |s.workers| && Enabled(job, s, i)
    ensures Measure(job, Step(job, s, i)) == Measure(job, s) - 1
    ensures CountInv(job, Step(job, s, i))
  {
    assert WorkerOk(job, s, i);
    var t, p := Step(job, s, i), Enters(job, s, i);
    assert t.workers == s.workers[i := p];
    SumsUpdate(s.workers, i, p);
    if s.workers[i].Publish? {
      var y := s.workers[i].row;
      assert Undone(job, t.done) == Undone(job, s.done)[y := job.w - t.done[y]];
      SumUpdate(Undone(job, s.done), y, job.w - t.done[y]);
    }
  }

  /** The number of moves, as opposed to idle turns, in a run. */
  ghost function Moves<R>(job: Job<R>, s: State<R>, schedule: seq<nat>): nat
    decreases |schedule|
  {
    if schedule == [] then 0
    else (if schedule[0] < |s.workers| && Enabled(job, s, schedule[0]) then 1 else 0)
         + Moves(job, Step(job, s, schedule[0]), schedule[1..])
  }

  lemma {:induction false} RunCounts<R>(job: Job<R>, s: State<R>, schedule: seq<nat>)
    requires Inv(job, s) && LogInv(s) && CountInv(job, s)
    ensures Measure(job, Run(job, s, schedule)) == Measure(job, s) - Moves(job, s, schedule)
    ensures CountInv(job, Run(job, s, schedule))
    decreases |schedule|
  {
    if schedule != [] {
      var i := schedule[0];
      StepInv(job, s, i);
      if i < |s.workers| && Enabled(job, s, i) { MoveCounts(job, s, i); }
      RunCounts(job, Step(job, s, i), schedule[1..]);
    }
  }

  lemma RestMeasure<R>(job: Job<R>, s: State<R>)
    requires Inv(job, s) && CountInv(job, s) && s.workers != [] && AtRest(job, s)
    ensures Measure(job, s) == 2 * |s.workers|
  {
    NoDeadlock(job, s);
    SumConst(Exits(s.workers), 1);
    SumConst(Lefts(s.workers), 2);
    SumConst(Undone(job, s.done), 0);
  }

  lemma MeasureNonNegative<R>(job: Job<R>, s: State<R>)
    requires Inv(job, s) && CountInv(job, s)
    ensures Measure(job, s) >= 0
  {
    SumRange(Exits(s.workers), 1);
    SumRange(Lefts(s.workers), 2);
    forall y | 0 <= y < |s.done| ensures 0 <= Undone(job, s.done)[y] <= job.w {
      assert RowOk(job, s, y);
    }
    SumRange(Undone(job, s.done), job.w);
  }

  /** From every state the frame can be completed, and that takes Measure - 2n moves. */
  lemma {:induction false} Completion<R>(job: Job<R>, s: State<R>) returns (schedule: seq<nat>)
    requires Inv(job, s) && LogInv(s) && CountInv(job, s) && s.workers != []
    ensures AtRest(job, Run(job, s, schedule))
    ensures Measure(job, s) == 2 * |s.workers| + Moves(job, s, schedule)
    decreases Measure(job, s)
  {
    hide Inv, LogInv, CountInv, Measure, Enabled;
    if AtRest(job, s) {
      schedule := [];
      RestMeasure(job, s);
    } else {
      var i :| 0 <= i < |s.workers| && Enabled(job, s, i);
      StepInv(job, s, i);
      MoveCounts(job, s, i);
      MeasureNonNegative(job, s);
      MeasureNonNegative(job, Step(job, s, i));
      StepWorkers(job, s, i);
      var rest := Completion(job, Step(job, s, i));
      schedule := [i] + rest;
      assert schedule[1..] == rest;
    }
  }

  lemma StepWorkers<R>(job: Job<R>, s: State<R>, i: nat)
    ensures |Step(job, s, i).workers| == |s.workers|
  {
  }

  /** No run makes more than h + n + 3wh moves, and every run that has come to rest has made exactly that
      many: a schedule that keeps giving turns to whoever can move ends with all rows complete. */
  lemma Termination<R>(job: Job<R>, s: State<R>, schedule: seq<nat>)
    requires Init(job, s) && s.workers != []
    ensures Moves(job, s, schedule) <= job.h + |s.workers| + 3 * (job.h * job.w)
    ensures AtRest(job, Run(job, s, schedule)) <==>
            Moves(job, s, schedule) == job.h + |s.workers| + 3 * (job.h * job.w)
  {
    InitInv(job, s);
    InitLog(job, s);
    var n := |s.workers|;
    SumConst(Exits(s.workers), 0);
    SumConst(Lefts(s.workers), 2);
    SumConst(Undone(job, s.done), job.w);
    RunCounts(job, s, schedule);
    RunInv(job, s, schedule);
    var t := Run(job, s, schedule);
    if AtRest(job, t) {
      RestMeasure(job, t);
    } else {
      var more := Completion(job, t);
      assert Moves(job, t, more) > 0 by { assert more != []; CompletionMoves(job, t, more); }
    }
  }

  lemma {:induction false} CompletionMoves<R>(job: Job<R>, s: State<R>, schedule: seq<nat>)
    ensures Moves(job, s, schedule) == 0 ==> Run(job, s, schedule) == s
    decreases |schedule|
  {
    if schedule != [] { CompletionMoves(job, Step(job, s, schedule[0]), schedule[1..]); }
  }

  // ---- fair runs ----

  ghost function Flat(rounds: seq<seq<nat>>): seq<nat> {
    if rounds == [] then [] else Flat(rounds[..|rounds| - 1]) + rounds[|rounds| - 1]
  }

  /** Every worker has a turn in the round. */
  ghost predicate Fair(round: seq<nat>, n: nat) { forall i :: 0 <= i < n ==> i in round }

  lemma {:induction false} RunConcat<R>(job: Job<R>, s: State<R>, a: seq<nat>, b: seq<nat>)
    ensures Run(job, s, a + b) == Run(job, Run(job, s, a), b)
    ensures Moves(job, s, a + b) == Moves(job, s, a) + Moves(job, Run(job, s, a), b)
    decreases |a|
  {
    hide Step, Enabled;
    if a == [] {
      assert a + b == b;
    } else {
      assert (a + b)[1..] == a[1..] + b;
      RunConcat(job, Step(job, s, a[0]), a[1..], b);
    }
  }

  /** In a round without moves nobody who had a turn could move. */
  lemma {:induction false} IdleTurn<R>(job: Job<R>, s: State<R>, round: seq<nat>, i: nat)
    requires Moves(job, s, round) == 0 && i in round && i < |s.workers|
    ensures !Enabled(job, s, i)
    decreases |round|
  {
    assert Step(job, s, round[0]) == s;
    if round[0] != i { IdleTurn(job, s, round[1..], i); }
  }

  lemma IdleRound<R>(job: Job<R>, s: State<R>, round: seq<nat>)
    requires Fair(round, |s.workers|) && Moves(job, s, round) == 0
    ensures AtRest(job, s) && Run(job, s, round) == s
  {
    CompletionMoves(job, s, round);
    forall i | 0 <= i < |s.workers| ensures !Enabled(job, s, i) {
      IdleTurn(job, s, round, i);
    }
  }

  /** Every fair round makes a move until the frame is complete. */
  lemma {:induction false} FairRounds<R>(job: Job<R>, s: State<R>, rounds: seq<seq<nat>>)
    requires Inv(job, s) && LogInv(s) && forall k :: 0 <= k < |rounds| ==> Fair(rounds[k], |s.workers|)
    ensures Moves(job, s, Flat(rounds)) >= |rounds| || AtRest(job, Run(job, s, Flat(rounds)))
    decreases |rounds|
  {
    hide Inv, LogInv, Run, Moves, AtRest, Fair;
    if rounds != [] {
      var before, last := Flat(rounds[..|rounds| - 1]), rounds[|rounds| - 1];
      FairRounds(job, s, rounds[..|rounds| - 1]);
      RunConcat(job, s, before, last);
      RunInv(job, s, before);
      var t := Run(job, s, before);
      if Moves(job, t, last) == 0 { IdleRound(job, t, last); }
      if AtRest(job, t) { RestStays(job, t, last); }
    }
  }

  lemma {:induction false} RestStays<R>(job: Job<R>, s: State<R>, schedule: seq<nat>)
    requires AtRest(job, s)
    ensures Run(job, s, schedule) == s
    decreases |schedule|
  {
    if schedule != [] {
      assert Step(job, s, schedule[0]) == s;
      RestStays(job, s, schedule[1..]);
    }
  }

  /** Every run of h + n + 3wh fair rounds ends with all rows complete and the results of raster order. */
  lemma FairCompletion<R>(job: Job<R>, s: State<R>, rounds: seq<seq<nat>>)
    requires Init(job, s) && s.workers != [] && |rounds| >= job.h + |s.workers| + 3 * (job.h * job.w)
    requires forall k :: 0 <= k < |rounds| ==> Fair(rounds[k], |s.workers|)
    ensures var t := Run(job, s, Flat(rounds));
            && AtRest(job, t)
            && (forall y :: 0 <= y < job.h ==> y < |t.done| && t.done[y] == job.w)
            && (forall x, y :: Inside(job, x, y) ==> Correct(job, t.results, x, y))
  {
    InitInv(job, s);
    InitLog(job, s);
    hide Inv, LogInv, Run, Moves, AtRest, Fair, Init, Correct;
    FairRounds(job, s, rounds);
    Termination(job, s, Flat(rounds));
    RunInv(job, s, Flat(rounds));
    RestDone(job, Run(job, s, Flat(rounds)));
    Confluence(job, s, Flat(rounds));
  }

  lemma RestDone<R>(job: Job<R>, s: State<R>)
    requires Inv(job, s) && s.workers != [] && AtRest(job, s)
    ensures forall y :: 0 <= y < job.h ==> y < |s.done| && s.done[y] == job.w
  {
    NoDeadlock(job, s);
  }
}
