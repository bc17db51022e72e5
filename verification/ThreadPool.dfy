/** The worker pool as a state machine. A step is one critical section under the pool's
    mutex, one notification, or one event of a worker outside it; any interleaving of steps
    is a run, spurious wake-ups included. */
module ThreadPool {
  import opened Bytes

  type Job = nat

  /** Where a worker is: about to lock and test its predicate, waiting on the condition
      variable, running a job, or gone. */
  datatype Worker = Ready | Asleep | Executing(job: Job) | Exited

  /** `pending` counts enqueues that have released the mutex but not notified yet. The last
      four fields record the history: jobs accepted, started and finished, and whether one
      was accepted after the shutdown flag was set. */
  datatype Pool = Pool(workers: seq<Worker>, queue: seq<Job>, maxQueued: nat, shutdown: bool, notifiedAll: bool,
                       pending: nat, accepted: seq<Job>, started: seq<Job>, finished: multiset<Job>, late: bool)

  datatype Step =
    | Enqueue(job: Job)
    | NotifyNobody
    | NotifyOne(w: nat)
    | SetShutdown
    | NotifyAll
    | Take(w: nat)
    | Sleep(w: nat)
    | Exit(w: nat)
    | Finish(w: nat)
    | WakeUp(w: nat)

  function Start(n: nat, maxQueued: nat): Pool {
    Pool(seq(n, _ => Ready), [], maxQueued, false, false, 0, [], [], multiset{}, false)
  }

  predicate Full(p: Pool) { p.maxQueued > 0 && |p.queue| >= p.maxQueued }

  function Woken(w: Worker): Worker { if w == Asleep then Ready else w }

  predicate IsAt(p: Pool, w: nat, status: Worker) { w < |p.workers| && p.workers[w] == status }

  /** The steps the program and the condition variable allow. A worker that holds the mutex
      takes a job if there is one, leaves if there is none and the pool is shut down, and
      otherwise goes to sleep. A notification wakes somebody if anybody sleeps. */
  predicate Enabled(p: Pool, s: Step) {
    match s
    case Enqueue(job) => true
    case NotifyNobody => p.pending > 0 && Asleep !in p.workers
    case NotifyOne(w) => p.pending > 0 && IsAt(p, w, Asleep)
    case SetShutdown => !p.shutdown
    case NotifyAll => p.shutdown && !p.notifiedAll
    case Take(w) => IsAt(p, w, Ready) && p.queue != []
    case Sleep(w) => IsAt(p, w, Ready) && p.queue == [] && !p.shutdown
    case Exit(w) => IsAt(p, w, Ready) && p.queue == [] && p.shutdown
    case Finish(w) => w < |p.workers| && p.workers[w].Executing?
    case WakeUp(w) => IsAt(p, w, Asleep)
  }

  /** A full queue refuses the job and changes nothing. */
  function Next(p: Pool, s: Step): Pool
    requires Enabled(p, s)
  {
    match s
    case Enqueue(job) =>
      if Full(p) then p
      else p.(queue := p.queue + [job], pending := p.pending + 1, accepted := p.accepted + [job],
              late := p.late || p.shutdown)
    case NotifyNobody => p.(pending := p.pending - 1)
    case NotifyOne(w) => p.(pending := p.pending - 1, workers := p.workers[w := Ready])
    case SetShutdown => p.(shutdown := true)
    case NotifyAll =>
      p.(notifiedAll := true,
         workers := seq(|p.workers|, i requires 0 <= i < |p.workers| => Woken(p.workers[i])))
    case Take(w) =>
      p.(workers := p.workers[w := Executing(p.queue[0])], queue := p.queue[1..], started := p.started + [p.queue[0]])
    case Sleep(w) => p.(workers := p.workers[w := Asleep])
    case Exit(w) => p.(workers := p.workers[w := Exited])
    case Finish(w) =>
      p.(workers := p.workers[w := Ready], finished := p.finished + multiset{p.workers[w].job})
    case WakeUp(w) => p.(workers := p.workers[w := Ready])
  }

  predicate IsRun(p: Pool, steps: seq<Step>)
    decreases |steps|
  {
    steps == [] || (Enabled(p, steps[0]) && IsRun(Next(p, steps[0]), steps[1..]))
  }

  function After(p: Pool, steps: seq<Step>): Pool
    requires IsRun(p, steps)
    decreases |steps|
  {
    if steps == [] then p else After(Next(p, steps[0]), steps[1..])
  }

  // ------------------------------------------------------------------- counting

  function Count(ws: seq<Worker>, status: Worker -> bool): nat {
    if ws == [] then 0 else (if status(ws[0]) then 1 else 0) + Count(ws[1..], status)
  }

  function IsReady(): Worker -> bool { (w: Worker) => w.Ready? }

  function IsAsleep(): Worker -> bool { (w: Worker) => w.Asleep? }

  function JobOf(w: Worker): multiset<Job> { if w.Executing? then multiset{w.job} else multiset{} }

  /** The jobs being run. */
  function Running(ws: seq<Worker>): multiset<Job> {
    if ws == [] then multiset{} else JobOf(ws[0]) + Running(ws[1..])
  }

  lemma {:induction false} CountUpdate(ws: seq<Worker>, i: nat, w: Worker, status: Worker -> bool)
    requires i < |ws|
    ensures Count(ws[i := w], status) + (if status(ws[i]) then 1 else 0) ==
            Count(ws, status) + (if status(w) then 1 else 0)
  {
    var us := ws[i := w];
    if i > 0 {
      assert us[1..] == ws[1..][i - 1 := w];
      CountUpdate(ws[1..], i - 1, w, status);
    } else {
      assert us[1..] == ws[1..];
    }
  }

  lemma SameAfterAdding(head: multiset<Job>, a: multiset<Job>, b: multiset<Job>, x: multiset<Job>, y: multiset<Job>)
    requires a + x == b + y
    ensures (head + a) + x == (head + b) + y
  {
    assert (head + a) + x == head + (a + x);
    assert (head + b) + y == head + (b + y);
  }

  lemma {:induction false} RunningUpdate(ws: seq<Worker>, i: nat, w: Worker)
    requires i < |ws|
    ensures Running(ws[i := w]) + JobOf(ws[i]) == Running(ws) + JobOf(w)
  {
    var us := ws[i := w];
    if i > 0 {
      assert us[1..] == ws[1..][i - 1 := w];
      RunningUpdate(ws[1..], i - 1, w);
      SameAfterAdding(JobOf(ws[0]), Running(us[1..]), Running(ws[1..]), JobOf(ws[i]), JobOf(w));
    } else {
      assert us[1..] == ws[1..];
    }
  }

  lemma {:induction false} CountNone(ws: seq<Worker>, status: Worker -> bool)
    ensures Count(ws, status) == 0 <==> forall i :: 0 <= i < |ws| ==> !status(ws[i])
  {
    if ws != [] { CountNone(ws[1..], status); }
  }

  lemma {:induction false} AllWoken(ws: seq<Worker>, us: seq<Worker>)
    requires |us| == |ws| && forall i :: 0 <= i < |ws| ==> us[i] == Woken(ws[i])
    ensures Count(us, IsAsleep()) == 0 && Running(us) == Running(ws)
    ensures Count(us, IsReady()) == Count(ws, IsReady()) + Count(ws, IsAsleep())
  {
    if ws != [] { AllWoken(ws[1..], us[1..]); }
  }

  // ------------------------------------------------------------------- invariant

  /** Jobs leave the queue in order and none is lost or run twice; the queue respects its
      bound; no wake-up is lost; the broadcast of the shutdown leaves nobody asleep. */
  ghost predicate Inv(p: Pool) {
    && p.accepted == p.started + p.queue
    && multiset(p.started) == p.finished + Running(p.workers)
    && (p.maxQueued > 0 ==> |p.queue| <= p.maxQueued)
    && (Count(p.workers, IsAsleep()) > 0 ==> |p.queue| <= Count(p.workers, IsReady()) + p.pending)
    && (p.notifiedAll ==> p.shutdown && Count(p.workers, IsAsleep()) == 0)
    && (Exited in p.workers ==> p.shutdown && (p.late || p.queue == []))
  }

  lemma {:induction false} StartIsEmpty(ws: seq<Worker>)
    requires forall i :: 0 <= i < |ws| ==> ws[i] == Ready
    ensures Count(ws, IsAsleep()) == 0 && Running(ws) == multiset{}
  {
    if ws != [] { StartIsEmpty(ws[1..]); }
  }

  lemma StartInv(n: nat, maxQueued: nat)
    ensures Inv(Start(n, maxQueued))
  {
    StartIsEmpty(Start(n, maxQueued).workers);
  }

  lemma Moved(p: Pool, i: nat, w: Worker)
    requires i < |p.workers|
    ensures Count(p.workers[i := w], IsAsleep()) + (if p.workers[i].Asleep? then 1 else 0) ==
            Count(p.workers, IsAsleep()) + (if w.Asleep? then 1 else 0)
    ensures Count(p.workers[i := w], IsReady()) + (if p.workers[i].Ready? then 1 else 0) ==
            Count(p.workers, IsReady()) + (if w.Ready? then 1 else 0)
    ensures Running(p.workers[i := w]) + JobOf(p.workers[i]) == Running(p.workers) + JobOf(w)
    ensures !p.workers[i].Executing? && !w.Executing? ==> Running(p.workers[i := w]) == Running(p.workers)
    ensures Exited in p.workers[i := w] ==> w == Exited || Exited in p.workers
  {
    CountUpdate(p.workers, i, w, IsAsleep());
    CountUpdate(p.workers, i, w, IsReady());
    RunningUpdate(p.workers, i, w);
    assert Running(p.workers[i := w]) + multiset{} == Running(p.workers[i := w]);
    assert Running(p.workers) + multiset{} == Running(p.workers);
  }

  lemma EnqueueInv(p: Pool, job: Job)
    requires Inv(p)
    ensures Inv(Next(p, Enqueue(job)))
  {
    Append3(p.started, p.queue, [job]);
  }

  lemma {:induction false} TakeInv(p: Pool, w: nat)
    requires Inv(p) && Enabled(p, Take(w))
    ensures Inv(Next(p, Take(w)))
  {
    var job := p.queue[0];
    Moved(p, w, Executing(job));
    hide Running, Count;
    assert p.queue == [job] + p.queue[1..];
    Append3(p.started, [job], p.queue[1..]);
    assert multiset(p.started + [job]) == multiset(p.started) + multiset{job};
    var q := Next(p, Take(w));
    assert Running(q.workers) + multiset{} == Running(q.workers);
    assert p.finished + (Running(p.workers) + multiset{job}) == (p.finished + Running(p.workers)) + multiset{job};
  }

  lemma FinishInv(p: Pool, w: nat)
    requires Inv(p) && Enabled(p, Finish(w))
    ensures Inv(Next(p, Finish(w)))
  {
    Moved(p, w, Ready);
    var job := p.workers[w].job;
    var q := Next(p, Finish(w));
    assert (p.finished + multiset{job}) + Running(q.workers) == p.finished + (Running(q.workers) + multiset{job});
  }

  lemma {:induction false} NotifyInv(p: Pool, s: Step)
    requires Inv(p) && Enabled(p, s) && (s.NotifyNobody? || s.NotifyOne? || s.NotifyAll? || s.WakeUp?)
    ensures Inv(Next(p, s))
  {
    hide Running, Count;
    match s
    case NotifyNobody => CountNone(p.workers, IsAsleep());
    case NotifyOne(w) => Moved(p, w, Ready);
    case NotifyAll => AllWoken(p.workers, Next(p, s).workers);
    case WakeUp(w) => Moved(p, w, Ready);
  }

  lemma {:induction false} PauseInv(p: Pool, s: Step)
    requires Inv(p) && Enabled(p, s) && (s.Sleep? || s.Exit?)
    ensures Inv(Next(p, s))
  {
    hide Running, Count;
    match s
    case Sleep(w) => Moved(p, w, Asleep);
    case Exit(w) => Moved(p, w, Exited);
  }

  /** Every step keeps the invariant. */
  lemma {:induction false} StepInv(p: Pool, s: Step)
    requires Inv(p) && Enabled(p, s)
    ensures Inv(Next(p, s))
  {
    hide Running, Count;
    match s
    case Enqueue(job) => EnqueueInv(p, job);
    case SetShutdown =>
    case Take(w) => TakeInv(p, w);
    case Finish(w) => FinishInv(p, w);
    case Sleep(_) => PauseInv(p, s);
    case Exit(_) => PauseInv(p, s);
    case _ => NotifyInv(p, s);
  }

  lemma {:induction false} RunInv(p: Pool, steps: seq<Step>)
    requires Inv(p) && IsRun(p, steps)
    ensures Inv(After(p, steps))
    decreases |steps|
  {
    if steps != [] {
      StepInv(p, steps[0]);
      RunInv(Next(p, steps[0]), steps[1..]);
    }
  }

  // ---------------------------------------------------------------- main results

  lemma {:induction false} SameWorkers(p: Pool, steps: seq<Step>)
    requires IsRun(p, steps)
    ensures |After(p, steps).workers| == |p.workers| && After(p, steps).maxQueued == p.maxQueued
    decreases |steps|
  {
    if steps != [] { SameWorkers(Next(p, steps[0]), steps[1..]); }
  }

  ghost predicate Reachable(p: Pool, n: nat, maxQueued: nat) {
    exists steps :: IsRun(Start(n, maxQueued), steps) && After(Start(n, maxQueued), steps) == p
  }

  lemma ReachableInv(p: Pool, n: nat, maxQueued: nat)
    requires Reachable(p, n, maxQueued)
    ensures Inv(p) && |p.workers| == n && p.maxQueued == maxQueued
  {
    var steps :| IsRun(Start(n, maxQueued), steps) && After(Start(n, maxQueued), steps) == p;
    StartInv(n, maxQueued);
    RunInv(Start(n, maxQueued), steps);
    SameWorkers(Start(n, maxQueued), steps);
  }

  /** In every reachable state jobs have been started in the order of their acceptance and
      each once, the queue respects its bound, and while anybody sleeps the queued jobs do
      not outnumber the workers about to look plus the notifications due. */
  lemma ReachableState(p: Pool, n: nat, maxQueued: nat)
    requires Reachable(p, n, maxQueued)
    ensures p.accepted == p.started + p.queue && multiset(p.started) == p.finished + Running(p.workers)
    ensures maxQueued > 0 ==> |p.queue| <= maxQueued
    ensures Asleep in p.workers ==> |p.queue| <= Count(p.workers, IsReady()) + p.pending
  {
    ReachableInv(p, n, maxQueued);
    CountNone(p.workers, IsAsleep());
  }

  /** A pool takes a job exactly if it has no bound or room left, in any state, shut down or not;
      then the job is the last in the queue and a notification is due. Otherwise nothing
      changes. */
  lemma TakesWithRoom(p: Pool, n: nat, maxQueued: nat, job: Job)
    requires Reachable(p, n, maxQueued)
    ensures Enabled(p, Enqueue(job))
    ensures var q := Next(p, Enqueue(job));
            if maxQueued == 0 || |p.queue| < maxQueued
            then q.queue == p.queue + [job] && q.accepted == p.accepted + [job] && q.pending == p.pending + 1
                 && q.workers == p.workers && q.started == p.started && q.finished == p.finished
            else q == p
  {
    ReachableInv(p, n, maxQueued);
  }

  lemma {:induction false} SomeReady(ws: seq<Worker>) returns (w: nat)
    requires Count(ws, IsReady()) > 0
    ensures w < |ws| && ws[w] == Ready
  {
    if ws[0].Ready? { w := 0; } else {
      var v := SomeReady(ws[1..]);
      w := v + 1;
    }
  }

  /** A queued job never waits for a wake-up that was lost: while some worker is left, a
      worker can take it, or a worker is still running a job, or a notification is due. */
  lemma NoLostWakeUp(p: Pool)
    returns (s: Step)
    requires Inv(p) && p.queue != [] && exists w :: 0 <= w < |p.workers| && p.workers[w] != Exited
    ensures Enabled(p, s) && (s.Take? || s.Finish? || s.NotifyOne? || s.NotifyNobody?)
  {
    var w: nat :| w < |p.workers| && p.workers[w] != Exited;
    match p.workers[w]
    case Ready => s := Take(w);
    case Executing(_) => s := Finish(w);
    case Asleep =>
      CountNone(p.workers, IsAsleep());
      if p.pending > 0 { s := NotifyOne(w); } else {
        var v := SomeReady(p.workers);
        s := Take(v);
      }
  }

  /** After the broadcast nobody is asleep, whatever happens next. */
  lemma NobodySleepsAgain(p: Pool, steps: seq<Step>)
    requires Inv(p) && p.notifiedAll && IsRun(p, steps)
    ensures Asleep !in After(p, steps).workers
  {
    RunInv(p, steps);
    StaysNotified(p, steps);
    CountNone(After(p, steps).workers, IsAsleep());
  }

  lemma {:induction false} StaysNotified(p: Pool, steps: seq<Step>)
    requires p.notifiedAll && IsRun(p, steps)
    ensures After(p, steps).notifiedAll
    decreases |steps|
  {
    if steps != [] { StaysNotified(Next(p, steps[0]), steps[1..]); }
  }

  /** Work left after the broadcast: jobs to take, jobs to finish, workers to leave. */
  function Work(p: Pool): nat { 3 * |p.queue| + Effort(p.workers) + p.pending }

  function Effort(ws: seq<Worker>): nat {
    if ws == [] then 0 else (if ws[0].Executing? then 2 else if ws[0].Ready? then 1 else 0) + Effort(ws[1..])
  }

  lemma {:induction false} EffortUpdate(ws: seq<Worker>, i: nat, w: Worker)
    requires i < |ws|
    ensures Effort(ws[i := w]) + Effort([ws[i]]) == Effort(ws) + Effort([w])
  {
    var us := ws[i := w];
    if i > 0 {
      assert us[1..] == ws[1..][i - 1 := w];
      EffortUpdate(ws[1..], i - 1, w);
    } else {
      assert us[1..] == ws[1..];
    }
  }

  predicate Enqueues(steps: seq<Step>) { exists i :: 0 <= i < |steps| && steps[i].Enqueue? }

  lemma {:induction false} StepsDown(p: Pool, s: Step)
    requires Inv(p) && p.notifiedAll && Enabled(p, s) && !s.Enqueue?
    ensures Work(Next(p, s)) < Work(p)
  {
    hide Running, Count;
    assert Asleep !in p.workers by { CountNone(p.workers, IsAsleep()); }
    match s
    case Take(w) => EffortUpdate(p.workers, w, Executing(p.queue[0]));
    case Exit(w) => EffortUpdate(p.workers, w, Exited);
    case Finish(w) => EffortUpdate(p.workers, w, Ready);
    case NotifyNobody =>
  }

  /** With nothing more enqueued, every run after the broadcast is bounded by the work left. */
  lemma {:induction false} DrainIsFinite(p: Pool, steps: seq<Step>)
    requires Inv(p) && p.notifiedAll && IsRun(p, steps) && !Enqueues(steps)
    ensures |steps| <= Work(p)
    decreases |steps|
  {
    if steps != [] {
      var q := Next(p, steps[0]);
      assert !steps[0].Enqueue?;
      StepInv(p, steps[0]);
      StepsDown(p, steps[0]);
      assert forall i :: 0 <= i < |steps[1..]| ==> steps[1..][i] == steps[i + 1];
      DrainIsFinite(q, steps[1..]);
    }
  }

  predicate Joined(p: Pool) { forall w :: 0 <= w < |p.workers| ==> p.workers[w] == Exited }

  /** Such a run can go on until every worker has left, so the join does return. */
  lemma DrainGoesOn(p: Pool) returns (s: Step)
    requires Inv(p) && p.notifiedAll && !Joined(p)
    ensures Enabled(p, s) && !s.Enqueue?
  {
    assert Asleep !in p.workers by { CountNone(p.workers, IsAsleep()); }
    var w: nat :| w < |p.workers| && p.workers[w] != Exited;
    if p.workers[w].Executing? { s := Finish(w); } else if p.queue != [] { s := Take(w); } else { s := Exit(w); }
  }

  lemma {:induction false} NothingRunning(ws: seq<Worker>)
    requires forall w :: 0 <= w < |ws| ==> ws[w] == Exited
    ensures Running(ws) == multiset{}
  {
    if ws != [] { NothingRunning(ws[1..]); }
  }

  /** When the join returns, and nothing was enqueued after the shutdown flag: every accepted
      job has been started in order and finished, exactly if the pool has a worker at all
      or no job was accepted. */
  lemma JoinedMeansDone(p: Pool)
    requires Inv(p) && Joined(p) && !p.late
    requires |p.workers| == 0 ==> p.started == []
    ensures (p.started == p.accepted && p.finished == multiset(p.accepted)) <==> (|p.workers| > 0 || p.accepted == [])
  {
    NothingRunning(p.workers);
    assert p.finished + multiset{} == p.finished;
    if |p.workers| > 0 {
      assert p.workers[0] == Exited;
      assert p.started + [] == p.started;
    }
  }

  lemma {:induction false} NobodyStarts(p: Pool, steps: seq<Step>)
    requires p.workers == [] && IsRun(p, steps)
    ensures After(p, steps).started == p.started && After(p, steps).workers == []
    decreases |steps|
  {
    if steps != [] { NobodyStarts(Next(p, steps[0]), steps[1..]); }
  }

  /** The same over whole runs from the start of a pool with `n` workers. */
  lemma JoinAfterRun(n: nat, maxQueued: nat, steps: seq<Step>)
    requires IsRun(Start(n, maxQueued), steps)
    ensures var p := After(Start(n, maxQueued), steps);
            Joined(p) && !p.late ==>
              ((p.started == p.accepted && p.finished == multiset(p.accepted)) <==> (n > 0 || p.accepted == []))
  {
    var p := After(Start(n, maxQueued), steps);
    StartInv(n, maxQueued);
    RunInv(Start(n, maxQueued), steps);
    SameWorkers(Start(n, maxQueued), steps);
    if n == 0 { NobodyStarts(Start(n, maxQueued), steps); }
    if Joined(p) && !p.late { JoinedMeansDone(p); }
  }
}
