/**
 * The counters of the thread pool as a state machine. A step is what a worker or the monitor does between
 * taking a lock and releasing one: pool->rwlock, which guards the counters, is held by a worker while it is
 * Taking or Finishing; the rwlock of a worker is held by the monitor while that worker is Leaving, and its
 * lock while it is Doomed.
 */
module PoolWorkers {

  /** The status field of a worker. */
  datatype Status = INIT | READY | BEFREE | BUSY | ERROR | DEAD

  /**
   * Where the worker's own thread is: before registering, waiting for an event, between marking itself busy and
   * being counted so, in the event, between marking itself ready and being counted so, or gone.
   */
  datatype Phase = Starting | Waiting | Taking | Running | Finishing | Gone

  /**
   * Where the monitor is with it: not checked yet, found wanting but not marked, found registered but not counted,
   * counted, given up, taken out of the counters but not marked, or cancelled.
   */
  datatype Stage = Created | Doomed | Checked | Counted | Failed | Leaving | Cancelled

  datatype Worker = Worker(status: Status, phase: Phase, stage: Stage)

  datatype Pool = Pool(cursize: int, available: int, workers: seq<Worker>)

  /**
   * Leave is a thread that ends without a trace, from the event loop, or before it when the list lacks it twice;
   * Vanish is one that ends before registering and is in the list by the time of its clean-up.
   */
  datatype Step =
    | Create
    | Register(w: nat)
    | TakeEvent(w: nat)
    | TakeCounted(w: nat)
    | FinishEvent(w: nat)
    | FinishCounted(w: nat)
    | CleanUp(w: nat)
    | Leave(w: nat)
    | Vanish(w: nat)
    | Check(w: nat, timedOut: bool)
    | GiveUp(w: nat)
    | Count(w: nat)
    | MarkFree(w: nat)
    | CancelCounted(w: nat)
    | CancelMarked(w: nat)

  /** Is pool->rwlock held between two steps? */
  predicate Locked(p: Pool) {
    exists i :: 0 <= i < |p.workers| && (p.workers[i].phase.Taking? || p.workers[i].phase.Finishing?)
  }

  /** Is the monitor, which is one thread, in the middle of creating or cancelling this worker? */
  predicate Pending(x: Worker) {
    x.stage.Created? || x.stage.Doomed? || x.stage.Checked? || x.stage.Leaving?
  }

  predicate Idle(p: Pool) {
    forall i :: 0 <= i < |p.workers| ==> !Pending(p.workers[i])
  }

  predicate Enabled(p: Pool, step: Step) {
    if step.Create? then Idle(p)
    else
      && step.w < |p.workers|
      && var x := p.workers[step.w];
      match step
      case Register(_) => x.phase == Starting && x.stage != Doomed
      case TakeEvent(_) => x.phase == Waiting && x.stage != Leaving && !Locked(p)
      case TakeCounted(_) => x.phase == Taking
      case FinishEvent(_) => x.phase == Running && x.stage != Leaving && !Locked(p)
      case FinishCounted(_) => x.phase == Finishing
      case CleanUp(_) => (x.phase.Starting? || x.phase.Waiting? || x.phase.Running?) && x.stage == Cancelled
      case Vanish(_) => x.phase == Starting && x.stage != Doomed
      case Leave(_) => (x.phase.Starting? || x.phase.Waiting?)
      case Check(_, timedOut) => x.stage == Created && (timedOut || x.status != INIT)
      case GiveUp(_) => x.stage == Doomed
      case Count(_) => x.stage == Checked && !Locked(p)
      case MarkFree(_) => Idle(p) && x.status == READY && (x.stage.Counted? || x.stage.Failed?)
      case CancelCounted(_) => Idle(p) && !Locked(p) && (x.stage.Counted? || x.stage.Failed?)
      case CancelMarked(_) => x.stage == Leaving
      case Create => true
  }

  /** Does the check give the worker up? */
  predicate GivesUp(x: Worker, timedOut: bool) {
    timedOut || x.status != READY
  }

  function Next(p: Pool, step: Step): Pool
    requires Enabled(p, step)
  {
    if step.Create? then Pool(p.cursize, p.available, p.workers + [Worker(INIT, Starting, Created)])
    else
      var x := p.workers[step.w];
      match step
      case Register(w) => With(p, w, Worker(READY, Waiting, x.stage), 0, 0)
      case TakeEvent(w) => With(p, w, Worker(BUSY, Taking, x.stage), 0, 0)
      case TakeCounted(w) => With(p, w, Worker(x.status, Running, x.stage), 0, -1)
      case FinishEvent(w) => With(p, w, Worker(READY, Finishing, x.stage), 0, 0)
      case FinishCounted(w) => With(p, w, Worker(x.status, Waiting, x.stage), 0, 1)
      case CleanUp(w) => With(p, w, Worker(DEAD, Gone, x.stage), 0, 0)
      case Vanish(w) => With(p, w, Worker(DEAD, Gone, x.stage), 0, 0)
      case Leave(w) => With(p, w, Worker(x.status, Gone, x.stage), 0, 0)
      case Check(w, timedOut) =>
        With(p, w, Worker(x.status, x.phase, if GivesUp(x, timedOut) then Doomed else Checked), 0, 0)
      case GiveUp(w) => With(p, w, Worker(ERROR, x.phase, Failed), 0, 0)
      case Count(w) => With(p, w, Worker(x.status, x.phase, Counted), 1, 1)
      case MarkFree(w) => With(p, w, Worker(BEFREE, x.phase, x.stage), 0, 0)
      case CancelCounted(w) =>
        if x.status == DEAD then p
        else With(p, w, Worker(x.status, x.phase, Leaving), -1, if (x.status.READY? || x.status.BEFREE?) then -1 else 0)
      case CancelMarked(w) => With(p, w, Worker(ERROR, x.phase, Cancelled), 0, 0)
  }

  function With(p: Pool, w: nat, x: Worker, size: int, free: int): Pool
    requires w < |p.workers|
  {
    Pool(p.cursize + size, p.available + free, p.workers[w := x])
  }

  // How many workers are busy, stand busy in the middle of their cancel, or are counted.

  function If(b: bool): int {
    if b then 1 else 0
  }

  function Busy(ws: seq<Worker>): int {
    if ws == [] then 0 else Busy(ws[..|ws| - 1]) + If(ws[|ws| - 1].status == BUSY)
  }

  function Standing(ws: seq<Worker>): int {
    if ws == [] then 0 else Standing(ws[..|ws| - 1]) + If(Stands(ws[|ws| - 1]))
  }

  /** Out of the counters, but still marked busy. */
  predicate Stands(x: Worker) {
    x.stage == Leaving && x.status == BUSY
  }

  function CountedWorkers(ws: seq<Worker>): int {
    if ws == [] then 0 else CountedWorkers(ws[..|ws| - 1]) + If(ws[|ws| - 1].stage == Counted)
  }

  /** What a worker adds to cursize - available: 1 when it is busy, corrected in the middle of its steps. */
  function Due(x: Worker): int {
    If(x.status == BUSY) - If(x.phase == Taking) + If(x.phase == Finishing) - If(Stands(x))
  }

  function Total(ws: seq<Worker>): int {
    if ws == [] then 0 else Total(ws[..|ws| - 1]) + Due(ws[|ws| - 1])
  }

  /** The difference of the counters is the number of busy workers. */
  predicate Balanced(p: Pool) {
    p.cursize - p.available == Busy(p.workers)
  }

  /** The difference of the counters is what the workers add to it. */
  predicate Exact(p: Pool) {
    p.cursize - p.available == Total(p.workers)
  }

  lemma {:induction false} UnlockedTotal(ws: seq<Worker>)
    requires forall i :: 0 <= i < |ws| ==> (!ws[i].phase.Taking? && !ws[i].phase.Finishing?)
    ensures Total(ws) == Busy(ws) - Standing(ws) && Standing(ws) >= 0
  {
    if ws != [] {
      UnlockedTotal(ws[..|ws| - 1]);
    }
  }

  /**
   * Whenever the counters may be read, an exact pool is off by the busy workers that stand between the two steps
   * of their cancel, and is balanced exactly when there are none.
   */
  lemma OffByStanding(p: Pool)
    requires Exact(p) && !Locked(p)
    ensures p.cursize - p.available == Busy(p.workers) - Standing(p.workers)
    ensures Balanced(p) <==> Standing(p.workers) == 0
    ensures Balanced(p) <==> forall i :: 0 <= i < |p.workers| ==> !Stands(p.workers[i])
  {
    UnlockedTotal(p.workers);
    StandingIsNone(p.workers);
  }

  lemma {:induction false} StandingIsNone(ws: seq<Worker>)
    ensures Standing(ws) >= 0
    ensures Standing(ws) == 0 <==> forall i :: 0 <= i < |ws| ==> !Stands(ws[i])
  {
    if ws != [] {
      StandingIsNone(ws[..|ws| - 1]);
      assert ws == ws[..|ws| - 1] + [ws[|ws| - 1]];
    }
  }

  lemma {:induction false} AtMostOneStands(ws: seq<Worker>)
    requires forall i, j :: 0 <= i < j < |ws| ==> !(Pending(ws[i]) && Pending(ws[j]))
    ensures Standing(ws) <= 1
  {
    if ws != [] {
      var front, last := ws[..|ws| - 1], ws[|ws| - 1];
      AtMostOneStands(front);
      if Stands(last) {
        assert forall i :: 0 <= i < |front| ==> front[i] == ws[i] && !Pending(ws[i]);
        StandingIsNone(front);
      }
    }
  }

  lemma {:induction false} SumsAfter(ws: seq<Worker>, w: nat, x: Worker)
    requires w < |ws|
    ensures Total(ws[w := x]) == Total(ws) - Due(ws[w]) + Due(x)
    ensures CountedWorkers(ws[w := x]) == CountedWorkers(ws) - If(ws[w].stage == Counted) + If(x.stage == Counted)
  {
    var n := |ws| - 1;
    if w == n {
      assert ws[w := x][..n] == ws[..n];
    } else {
      assert ws[w := x][..n] == ws[..n][w := x];
      SumsAfter(ws[..n], w, x);
    }
  }

  /** The steps after which the counters are off. */
  predicate Breaks(p: Pool, step: Step)
    requires Enabled(p, step)
  {
    match step
    case Register(w) => p.workers[w].status == BUSY && p.workers[w].stage != Leaving
    case TakeEvent(w) => p.workers[w].status == BUSY
    case FinishEvent(w) => p.workers[w].status != BUSY
    case CleanUp(w) => p.workers[w].status == BUSY
    case Vanish(w) => p.workers[w].status == BUSY && p.workers[w].stage != Leaving
    case GiveUp(w) => p.workers[w].status == BUSY
    case CancelCounted(w) => (p.workers[w].status.INIT? || p.workers[w].status.ERROR?)
    case _ => false
  }

  /** What the step adds to the counters is what the worker then adds, exactly when it is none of these. */
  lemma DueMoves(p: Pool, step: Step)
    requires Enabled(p, step) && !step.Create?
    ensures var q := Next(p, step);
      && |q.workers| == |p.workers| && q.workers == p.workers[step.w := q.workers[step.w]]
      && ((q.cursize - q.available) - (p.cursize - p.available) == Due(q.workers[step.w]) - Due(p.workers[step.w])
          <==> !Breaks(p, step))
  {
  }

  /** A step keeps the pool exact exactly when it is none of these. */
  lemma StepKeepsExact(p: Pool, step: Step)
    requires Exact(p) && Enabled(p, step)
    ensures Exact(Next(p, step)) <==> !Breaks(p, step)
  {
    if step.Create? {
      NewWorker(p);
    } else {
      DueMoves(p, step);
      SumsAfter(p.workers, step.w, Next(p, step).workers[step.w]);
    }
  }

  lemma NewWorker(p: Pool)
    requires Enabled(p, Create)
    ensures Total(Next(p, Create).workers) == Total(p.workers)
    ensures CountedWorkers(Next(p, Create).workers) == CountedWorkers(p.workers)
  {
    assert Next(p, Create).workers[..|p.workers|] == p.workers;
  }

  // Orderly runs: no registration fails, and a worker takes no step once a cancel has marked it.

  predicate Orderly(p: Pool, step: Step)
    requires Enabled(p, step)
  {
    match step
    case Check(w, timedOut) => !GivesUp(p.workers[w], timedOut)
    case Register(w) => p.workers[w].status != ERROR
    case TakeEvent(w) => p.workers[w].status != ERROR
    case FinishEvent(w) => p.workers[w].status != ERROR
    case _ => true
  }

  /** How the status of a worker goes with where its thread and the monitor are, while nothing goes wrong. */
  predicate Fits(x: Worker) {
    && (!x.stage.Doomed? && !x.stage.Failed?)
    && match x.phase
       case Starting => x.status == INIT && x.stage == Created
       case Waiting => if x.stage == Cancelled then x.status == ERROR else (x.status.READY? || x.status.BEFREE?)
       case Taking => x.status == BUSY && (!x.stage.Leaving? && !x.stage.Cancelled?)
       case Running => x.status == if x.stage == Cancelled then ERROR else BUSY
       case Finishing => (x.status.READY? || x.status.BEFREE?) && (!x.stage.Leaving? && !x.stage.Cancelled?)
       case Gone =>
         if x.stage == Cancelled then (x.status.ERROR? || x.status.DEAD?)
         else (x.status.READY? || x.status.BEFREE?) || ((x.status.INIT? || x.status.DEAD?) && x.stage == Created)
  }

  /** What holds after every step of an orderly run: cursize counts the workers in service. */
  ghost predicate Sound(p: Pool) {
    && Exact(p)
    && p.cursize == CountedWorkers(p.workers)
    && (forall i :: 0 <= i < |p.workers| ==> Fits(p.workers[i]))
    && forall i, j :: 0 <= i < j < |p.workers| ==> !(Pending(p.workers[i]) && Pending(p.workers[j]))
  }

  ghost predicate SomeStands(p: Pool) {
    exists i :: 0 <= i < |p.workers| && Stands(p.workers[i])
  }

  /**
   * cursize is the number of workers in service, and cursize - available that of busy workers, less one exactly
   * while a busy worker stands between the two steps of its cancel.
   */
  ghost predicate CountersRight(p: Pool) {
    && p.cursize == CountedWorkers(p.workers)
    && p.cursize - p.available == Busy(p.workers) - If(SomeStands(p))
    && (Balanced(p) <==> !SomeStands(p))
  }

  /** Whenever the counters may be read in a sound pool they are right. */
  lemma SoundCounters(p: Pool)
    requires Sound(p) && !Locked(p)
    ensures CountersRight(p)
  {
    OffByStanding(p);
    StandingIsNone(p.workers);
    AtMostOneStands(p.workers);
  }

  /** The worker that takes part in an orderly step fits afterwards, and the step breaks nothing. */
  lemma OrderlyWorkerFits(p: Pool, step: Step)
    requires Sound(p) && Enabled(p, step) && Orderly(p, step) && !step.Create?
    ensures !Breaks(p, step) && Fits(Next(p, step).workers[step.w])
    ensures Pending(Next(p, step).workers[step.w]) ==> Pending(p.workers[step.w]) || Idle(p)
  {
    assert Fits(p.workers[step.w]);
    if step.FinishEvent? || step.TakeEvent? {
      assert (!p.workers[step.w].phase.Taking? && !p.workers[step.w].phase.Finishing?);
    }
    if step.CancelCounted? {
      assert (!p.workers[step.w].phase.Taking? && !p.workers[step.w].phase.Finishing?);
    }
  }

  lemma OrderlyStepCounts(p: Pool, step: Step)
    requires Sound(p) && Enabled(p, step) && !step.Create?
    ensures Next(p, step).cursize == CountedWorkers(Next(p, step).workers)
  {
    assert Fits(p.workers[step.w]);
    SumsAfter(p.workers, step.w, Next(p, step).workers[step.w]);
  }

  lemma OrderlyStepKeeps(p: Pool, step: Step)
    requires Sound(p) && Enabled(p, step) && Orderly(p, step)
    ensures Sound(Next(p, step))
  {
    StepKeepsExact(p, step);
    if step.Create? {
      NewWorkerIsSound(p);
    } else {
      OrderlyWorkerFits(p, step);
      OrderlyStepCounts(p, step);
      DueMoves(p, step);
      SoundWith(p, step.w, Next(p, step));
    }
  }

  lemma NewWorkerIsSound(p: Pool)
    requires Sound(p) && Idle(p)
    ensures Sound(Next(p, Create))
  {
    StepKeepsExact(p, Create);
    NewWorker(p);
  }

  /** One worker of a sound pool changed, the counters with it. */
  lemma SoundWith(p: Pool, w: nat, q: Pool)
    requires Sound(p) && w < |p.workers| && |q.workers| == |p.workers|
    requires q.workers == p.workers[w := q.workers[w]]
    requires Exact(q) && q.cursize == CountedWorkers(q.workers) && Fits(q.workers[w])
    requires Pending(q.workers[w]) ==> Pending(p.workers[w]) || Idle(p)
    ensures Sound(q)
  {
    OneAtATime(p.workers, w, q.workers[w]);
    assert forall i :: 0 <= i < |q.workers| && i != w ==> q.workers[i] == p.workers[i];
  }

  lemma OneAtATime(ws: seq<Worker>, w: nat, x: Worker)
    requires forall i, j :: 0 <= i < j < |ws| ==> !(Pending(ws[i]) && Pending(ws[j]))
    requires w < |ws| && (Pending(x) ==> Pending(ws[w]) || forall i :: 0 <= i < |ws| ==> !Pending(ws[i]))
    ensures var now := ws[w := x];
      forall i, j :: 0 <= i < j < |now| ==> !(Pending(now[i]) && Pending(now[j]))
  {
  }

  // Runs.

  datatype Run = Stop | Go(step: Step, rest: Run)

  /** The run is possible from p and ends in q. */
  ghost predicate Leads(p: Pool, run: Run, q: Pool)
    decreases run
  {
    match run
    case Stop => p == q
    case Go(step, rest) => Enabled(p, step) && Leads(Next(p, step), rest, q)
  }

  ghost predicate OrderlyRun(p: Pool, run: Run)
    decreases run
  {
    match run
    case Stop => true
    case Go(step, rest) => Enabled(p, step) && Orderly(p, step) && OrderlyRun(Next(p, step), rest)
  }

  /** Over every orderly interleaving the pool stays sound. */
  lemma {:induction false} OrderlyRunsAreSound(p: Pool, run: Run, q: Pool)
    requires Sound(p) && Leads(p, run, q) && OrderlyRun(p, run)
    ensures Sound(q)
    decreases run
  {
    match run
    case Stop =>
    case Go(step, rest) =>
      OrderlyStepKeeps(p, step);
      OrderlyRunsAreSound(Next(p, step), rest, q);
  }

  lemma EmptyIsSound()
    ensures Sound(Pool(0, 0, []))
  {
  }

  /** So after every orderly run from a sound pool the counters are right whenever they may be read. */
  lemma OrderlyCounters(p: Pool, run: Run, q: Pool)
    requires Sound(p) && Leads(p, run, q) && OrderlyRun(p, run) && !Locked(q)
    ensures CountersRight(q)
  {
    OrderlyRunsAreSound(p, run, q);
    SoundCounters(q);
  }

  /** Balanced at every point of the run at which pool->rwlock is free. */
  ghost predicate BalancedWhenFree(p: Pool, run: Run)
    decreases run
  {
    && (!Locked(p) ==> Balanced(p))
    && match run
       case Stop => true
       case Go(step, rest) => Enabled(p, step) && BalancedWhenFree(Next(p, step), rest)
  }

  predicate CancelsBusy(p: Pool, step: Step)
    requires Enabled(p, step)
  {
    step.CancelCounted? && p.workers[step.w].status == BUSY
  }

  ghost predicate NoBusyCancel(p: Pool, run: Run)
    decreases run
  {
    match run
    case Stop => true
    case Go(step, rest) => Enabled(p, step) && !CancelsBusy(p, step) && NoBusyCancel(Next(p, step), rest)
  }

  lemma StandsAfter(p: Pool, step: Step)
    requires Sound(p) && !SomeStands(p) && Enabled(p, step) && Orderly(p, step)
    ensures SomeStands(Next(p, step)) <==> CancelsBusy(p, step)
    ensures CancelsBusy(p, step) ==> !Locked(Next(p, step))
  {
    var q := Next(p, step);
    if step.Create? {
      assert forall i :: 0 <= i < |p.workers| ==> q.workers[i] == p.workers[i] && !Stands(p.workers[i]);
    } else {
      assert Fits(p.workers[step.w]);
      assert forall i :: 0 <= i < |q.workers| && i != step.w ==> q.workers[i] == p.workers[i] && !Stands(p.workers[i]);
      StandsOf(p, step);
    }
  }

  lemma StandsOf(p: Pool, step: Step)
    requires Enabled(p, step) && !step.Create? && Fits(p.workers[step.w]) && !Stands(p.workers[step.w])
    ensures Stands(Next(p, step).workers[step.w]) <==> CancelsBusy(p, step)
  {
  }

  /** An orderly run is balanced whenever pool->rwlock is free exactly when it cancels no busy worker. */
  lemma {:induction false} BalancedExactly(p: Pool, run: Run, q: Pool)
    requires Sound(p) && !SomeStands(p) && Leads(p, run, q) && OrderlyRun(p, run)
    ensures BalancedWhenFree(p, run) <==> NoBusyCancel(p, run)
    decreases run
  {
    if !Locked(p) {
      SoundCounters(p);
    }
    match run
    case Stop =>
    case Go(step, rest) =>
      OrderlyStepKeeps(p, step);
      StandsAfter(p, step);
      if CancelsBusy(p, step) {
        SoundCounters(Next(p, step));
      } else {
        BalancedExactly(Next(p, step), rest, q);
      }
  }

  ghost predicate ExactThroughout(p: Pool, run: Run)
    decreases run
  {
    && Exact(p)
    && match run
       case Stop => true
       case Go(step, rest) => Enabled(p, step) && ExactThroughout(Next(p, step), rest)
  }

  ghost predicate NoneBreaks(p: Pool, run: Run)
    decreases run
  {
    match run
    case Stop => true
    case Go(step, rest) => Enabled(p, step) && !Breaks(p, step) && NoneBreaks(Next(p, step), rest)
  }

  /** Any run whatever is exact after every step exactly when none of its steps breaks it. */
  lemma {:induction false} ExactExactly(p: Pool, run: Run, q: Pool)
    requires Exact(p) && Leads(p, run, q)
    ensures ExactThroughout(p, run) <==> NoneBreaks(p, run)
    decreases run
  {
    match run
    case Stop =>
    case Go(step, rest) =>
      StepKeepsExact(p, step);
      if Exact(Next(p, step)) {
        ExactExactly(Next(p, step), rest, q);
      }
  }

  // Three runs from an empty pool.

  predicate Moves(p: Pool, step: Step, q: Pool) {
    Enabled(p, step) && Next(p, step) == q
  }

  lemma Ahead(p: Pool, step: Step, next: Pool, rest: Run, q: Pool)
    requires Moves(p, step, next) && Leads(next, rest, q)
    ensures Leads(p, Go(step, rest), q)
    ensures OrderlyRun(p, Go(step, rest)) <==> Orderly(p, step) && OrderlyRun(next, rest)
  {
  }

  function Solo(cursize: int, available: int, status: Status, phase: Phase, stage: Stage): Pool {
    Pool(cursize, available, [Worker(status, phase, stage)])
  }

  /** A single worker starts, registers and takes an event before the monitor has looked at it. */
  lemma OneTakesEarly(rest: Run, q: Pool)
    requires Leads(Solo(0, -1, BUSY, Running, Created), rest, q)
    ensures Leads(Pool(0, 0, []), Go(Create, Go(Register(0), Go(TakeEvent(0), Go(TakeCounted(0), rest)))), q)
  {
    var created, ready := Solo(0, 0, INIT, Starting, Created), Solo(0, 0, READY, Waiting, Created);
    var taking, taken := Solo(0, 0, BUSY, Taking, Created), Solo(0, -1, BUSY, Running, Created);
    Ahead(taking, TakeCounted(0), taken, rest, q);
    Ahead(ready, TakeEvent(0), taking, Go(TakeCounted(0), rest), q);
    Ahead(created, Register(0), ready, Go(TakeEvent(0), Go(TakeCounted(0), rest)), q);
    Ahead(Pool(0, 0, []), Create, created, Go(Register(0), Go(TakeEvent(0), Go(TakeCounted(0), rest))), q);
  }

  /** The monitor then gives it up, and the counters are off. */
  lemma EarlyEventUnbalances() returns (run: Run, q: Pool)
    ensures Leads(Pool(0, 0, []), run, q) && !Locked(q) && !Balanced(q)
    ensures run == Go(Create, Go(Register(0), Go(TakeEvent(0), Go(TakeCounted(0),
      Go(Check(0, false), Go(GiveUp(0), Stop))))))
  {
    var taken, doomed := Solo(0, -1, BUSY, Running, Created), Solo(0, -1, BUSY, Running, Doomed);
    q := Solo(0, -1, ERROR, Running, Failed);
    run := Stop;
    Ahead(doomed, GiveUp(0), q, run, q);
    run := Go(GiveUp(0), run);
    Ahead(taken, Check(0, false), doomed, run, q);
    run := Go(Check(0, false), run);
    OneTakesEarly(run, q);
    run := Go(Create, Go(Register(0), Go(TakeEvent(0), Go(TakeCounted(0), run))));
  }

  /** One worker is cancelled in its event: after the counting step alone the counters are off. */
  lemma OneIsCancelled(rest: Run, q: Pool)
    requires Leads(Solo(0, 0, BUSY, Running, Leaving), rest, q)
    ensures Leads(Solo(1, 1, READY, Waiting, Counted),
      Go(TakeEvent(0), Go(TakeCounted(0), Go(CancelCounted(0), rest))), q)
  {
    var counted, taking := Solo(1, 1, READY, Waiting, Counted), Solo(1, 1, BUSY, Taking, Counted);
    var taken, leaving := Solo(1, 0, BUSY, Running, Counted), Solo(0, 0, BUSY, Running, Leaving);
    Ahead(taken, CancelCounted(0), leaving, rest, q);
    Ahead(taking, TakeCounted(0), taken, Go(CancelCounted(0), rest), q);
    Ahead(counted, TakeEvent(0), taking, Go(TakeCounted(0), Go(CancelCounted(0), rest)), q);
  }

  lemma OneStarts(rest: Run, q: Pool)
    requires Leads(Solo(1, 1, READY, Waiting, Counted), rest, q)
    ensures Leads(Pool(0, 0, []), Go(Create, Go(Register(0), Go(Check(0, false), Go(Count(0), rest)))), q)
    ensures OrderlyRun(Pool(0, 0, []), Go(Create, Go(Register(0), Go(Check(0, false), Go(Count(0), rest))))) <==>
            OrderlyRun(Solo(1, 1, READY, Waiting, Counted), rest)
  {
    var created, ready := Solo(0, 0, INIT, Starting, Created), Solo(0, 0, READY, Waiting, Created);
    var checked, counted := Solo(0, 0, READY, Waiting, Checked), Solo(1, 1, READY, Waiting, Counted);
    Ahead(checked, Count(0), counted, rest, q);
    Ahead(ready, Check(0, false), checked, Go(Count(0), rest), q);
    Ahead(created, Register(0), ready, Go(Check(0, false), Go(Count(0), rest)), q);
    Ahead(Pool(0, 0, []), Create, created, Go(Register(0), Go(Check(0, false), Go(Count(0), rest))), q);
  }

  /** A worker that ends its event after its cancel has marked it frees itself a second time. */
  lemma LateStepUnbalances() returns (run: Run, q: Pool)
    ensures Leads(Pool(0, 0, []), run, q) && !Locked(q) && !Balanced(q)
    ensures run == Go(Create, Go(Register(0), Go(Check(0, false), Go(Count(0), Go(TakeEvent(0), Go(TakeCounted(0),
      Go(CancelCounted(0), Go(CancelMarked(0), Go(FinishEvent(0), Go(FinishCounted(0), Stop))))))))))
  {
    q := Solo(0, 1, READY, Waiting, Cancelled);
    run := LateEnd(q);
    OneIsCancelled(run, q);
    run := Go(TakeEvent(0), Go(TakeCounted(0), Go(CancelCounted(0), run)));
    OneStarts(run, q);
    run := Go(Create, Go(Register(0), Go(Check(0, false), Go(Count(0), run))));
    assert !Locked(q) && !Balanced(q);
  }

  lemma LateEnd(q: Pool) returns (run: Run)
    requires q == Solo(0, 1, READY, Waiting, Cancelled)
    ensures Leads(Solo(0, 0, BUSY, Running, Leaving), run, q)
    ensures run == Go(CancelMarked(0), Go(FinishEvent(0), Go(FinishCounted(0), Stop)))
  {
    var leaving, cancelled := Solo(0, 0, BUSY, Running, Leaving), Solo(0, 0, ERROR, Running, Cancelled);
    var finishing := Solo(0, 0, READY, Finishing, Cancelled);
    run := Stop;
    Ahead(finishing, FinishCounted(0), q, run, q);
    run := Go(FinishCounted(0), run);
    Ahead(cancelled, FinishEvent(0), finishing, run, q);
    run := Go(FinishEvent(0), run);
    Ahead(leaving, CancelMarked(0), cancelled, run, q);
    run := Go(CancelMarked(0), run);
  }

  function Pair(cursize: int, available: int, x: Worker, status: Status, phase: Phase, stage: Stage): Pool {
    Pool(cursize, available, [x, Worker(status, phase, stage)])
  }

  /** A second worker starts while the first waits. */
  lemma AnotherStarts(rest: Run, q: Pool)
    requires Leads(Pair(2, 2, Worker(READY, Waiting, Counted), READY, Waiting, Counted), rest, q)
    ensures var run := Go(Create, Go(Register(1), Go(Check(1, false), Go(Count(1), rest))));
      && Leads(Solo(1, 1, READY, Waiting, Counted), run, q)
      && (OrderlyRun(Solo(1, 1, READY, Waiting, Counted), run) <==>
          OrderlyRun(Pair(2, 2, Worker(READY, Waiting, Counted), READY, Waiting, Counted), rest))
  {
    var x := Worker(READY, Waiting, Counted);
    var created, ready := Pair(1, 1, x, INIT, Starting, Created), Pair(1, 1, x, READY, Waiting, Created);
    var checked, counted := Pair(1, 1, x, READY, Waiting, Checked), Pair(2, 2, x, READY, Waiting, Counted);
    Ahead(checked, Count(1), counted, rest, q);
    Ahead(ready, Check(1, false), checked, Go(Count(1), rest), q);
    Ahead(created, Register(1), ready, Go(Check(1, false), Go(Count(1), rest)), q);
    Ahead(Solo(1, 1, READY, Waiting, Counted), Create, created,
      Go(Register(1), Go(Check(1, false), Go(Count(1), rest))), q);
  }

  /** The first is cancelled in its event; before it is marked, the second takes one. */
  lemma AnotherTakes() returns (run: Run, end: Pool)
    ensures Leads(Pair(2, 2, Worker(READY, Waiting, Counted), READY, Waiting, Counted), run, end)
    ensures OrderlyRun(Pair(2, 2, Worker(READY, Waiting, Counted), READY, Waiting, Counted), run)
    ensures end == Pair(1, 0, Worker(BUSY, Running, Leaving), BUSY, Running, Counted)
    ensures run == Go(TakeEvent(0), Go(TakeCounted(0), Go(CancelCounted(0),
      Go(TakeEvent(1), Go(TakeCounted(1), Stop)))))
  {
    var start := Pair(2, 2, Worker(READY, Waiting, Counted), READY, Waiting, Counted);
    var taking := Pair(2, 2, Worker(BUSY, Taking, Counted), READY, Waiting, Counted);
    var taken := Pair(2, 1, Worker(BUSY, Running, Counted), READY, Waiting, Counted);
    var leaving := Pair(1, 1, Worker(BUSY, Running, Leaving), READY, Waiting, Counted);
    var second := Pair(1, 1, Worker(BUSY, Running, Leaving), BUSY, Taking, Counted);
    end := Pair(1, 0, Worker(BUSY, Running, Leaving), BUSY, Running, Counted);
    run := Stop;
    Ahead(second, TakeCounted(1), end, run, end);
    run := Go(TakeCounted(1), run);
    Ahead(leaving, TakeEvent(1), second, run, end);
    run := Go(TakeEvent(1), run);
    Ahead(taken, CancelCounted(0), leaving, run, end);
    run := Go(CancelCounted(0), run);
    Ahead(taking, TakeCounted(0), taken, run, end);
    run := Go(TakeCounted(0), run);
    Ahead(start, TakeEvent(0), taking, run, end);
    run := Go(TakeEvent(0), run);
  }

  /** So even an orderly run, at a release of pool->rwlock, leaves the counters off while a cancel is halfway. */
  lemma OrderlyRunUnbalances() returns (run: Run, q: Pool)
    ensures Leads(Pool(0, 0, []), run, q) && OrderlyRun(Pool(0, 0, []), run) && !Locked(q) && !Balanced(q)
    ensures run == Go(Create, Go(Register(0), Go(Check(0, false), Go(Count(0),
      Go(Create, Go(Register(1), Go(Check(1, false), Go(Count(1), Go(TakeEvent(0), Go(TakeCounted(0),
      Go(CancelCounted(0), Go(TakeEvent(1), Go(TakeCounted(1), Stop)))))))))))))
  {
    run, q := AnotherTakes();
    AnotherStarts(run, q);
    run := Go(Create, Go(Register(1), Go(Check(1, false), Go(Count(1), run))));
    OneStarts(run, q);
    run := Go(Create, Go(Register(0), Go(Check(0, false), Go(Count(0), run))));
    PairIsOff();
  }

  lemma PairIsOff()
    ensures var end := Pair(1, 0, Worker(BUSY, Running, Leaving), BUSY, Running, Counted);
      !Locked(end) && !Balanced(end)
  {
    var ws := [Worker(BUSY, Running, Leaving), Worker(BUSY, Running, Counted)];
    assert ws[..1] == [ws[0]] && ws[..1][..0] == [];
    assert Busy(ws) == Busy(ws[..1]) + 1;
  }
}
