/** The server's accept loop over its worker pool: every accepted socket is closed once. */
module Listener {
  import opened Bytes
  import opened ThreadPool

  /** Where the accepting thread is. A connection in hand is named by its number. */
  datatype Phase =
    | Accepting
    | InHand(sock: nat)
    | Notifying
    | Refusing(sock: nat)
    | Stopping
    | Broadcasting
    | Joining
    | Returned

  /** `total` counts the connections accepted so far, which are named 0, 1, ...; `refused`
      are those the accept loop closed itself. A pool job closes its socket as it ends. */
  datatype Server = Server(phase: Phase, pool: Pool, total: nat, refused: multiset<nat>)

  datatype Move =
    | Accept
    | Submit
    | Notify(w: Option<nat>)
    | CloseRefused
    | StopListening
    | Shut
    | Broadcast
    | Join
    | Work(step: Step)

  function Closed(s: Server): multiset<nat> { s.pool.finished + s.refused }

  predicate WorkerStep(step: Step) {
    step.Take? || step.Sleep? || step.Exit? || step.Finish? || step.WakeUp?
  }

  /** The one producer of this pool is the accept loop, which alternates with the workers. */
  predicate CanMove(s: Server, m: Move) {
    match m
    case Accept => s.phase == Accepting
    case Submit => s.phase.InHand?
    case Notify(w) =>
      s.phase == Notifying
      && (match w case Some(v) => Enabled(s.pool, NotifyOne(v)) case None => Enabled(s.pool, NotifyNobody))
    case CloseRefused => s.phase.Refusing?
    case StopListening => s.phase == Accepting
    case Shut => s.phase == Stopping && Enabled(s.pool, SetShutdown)
    case Broadcast => s.phase == Broadcasting && Enabled(s.pool, NotifyAll)
    case Join => s.phase == Joining && Joined(s.pool)
    case Work(step) => WorkerStep(step) && Enabled(s.pool, step)
  }

  function Moved(s: Server, m: Move): Server
    requires CanMove(s, m)
  {
    match m
    case Accept => s.(phase := InHand(s.total), total := s.total + 1)
    case Submit =>
      var sock := s.phase.sock;
      if Full(s.pool) then s.(phase := Refusing(sock))
      else s.(phase := Notifying, pool := Next(s.pool, Enqueue(sock)))
    case Notify(w) =>
      s.(phase := Accepting,
         pool := match w case Some(v) => Next(s.pool, NotifyOne(v)) case None => Next(s.pool, NotifyNobody))
    case CloseRefused => s.(phase := Accepting, refused := s.refused + multiset{s.phase.sock})
    case StopListening => s.(phase := Stopping)
    case Shut => s.(phase := Broadcasting, pool := Next(s.pool, SetShutdown))
    case Broadcast => s.(phase := Joining, pool := Next(s.pool, NotifyAll))
    case Join => s.(phase := Returned)
    case Work(step) => s.(pool := Next(s.pool, step))
  }

  predicate IsRun(s: Server, moves: seq<Move>)
    decreases |moves|
  {
    moves == [] || (CanMove(s, moves[0]) && IsRun(Moved(s, moves[0]), moves[1..]))
  }

  function After(s: Server, moves: seq<Move>): Server
    requires IsRun(s, moves)
    decreases |moves|
  {
    if moves == [] then s else After(Moved(s, moves[0]), moves[1..])
  }

  function Opening(n: nat, maxQueued: nat): Server { Server(Accepting, Start(n, maxQueued), 0, multiset{}) }

  // ------------------------------------------------------------------ invariant

  /** The numbers 0, 1, ..., k - 1, once each. */
  function FirstSockets(k: nat): multiset<nat> {
    if k == 0 then multiset{} else FirstSockets(k - 1) + multiset{k - 1}
  }

  function Held(s: Server): multiset<nat> {
    if s.phase.InHand? || s.phase.Refusing? then multiset{s.phase.sock} else multiset{}
  }

  predicate Stopped(phase: Phase) { phase == Broadcasting || phase == Joining || phase == Returned }

  /** Every accepted connection is in exactly one place: in hand, refused, or with the pool. */
  ghost predicate Inv(s: Server) {
    && ThreadPool.Inv(s.pool) && !s.pool.late && (s.pool.workers == [] ==> s.pool.started == [])
    && FirstSockets(s.total) == Held(s) + s.refused + multiset(s.pool.accepted)
    && s.pool.pending == (if s.phase == Notifying then 1 else 0)
    && (s.pool.shutdown <==> Stopped(s.phase))
    && (s.phase == Joining || s.phase == Returned <==> s.pool.notifiedAll)
    && (s.phase == Returned ==> Joined(s.pool))
  }

  lemma OpeningInv(n: nat, maxQueued: nat)
    ensures Inv(Opening(n, maxQueued))
  {
    StartInv(n, maxQueued);
  }

  lemma StillJoined(p: Pool, step: Step)
    requires WorkerStep(step) && Enabled(p, step)
    ensures !Joined(p)
    ensures |Next(p, step).workers| == |p.workers|
  {
  }

  lemma Rehomed(held: multiset<nat>, refused: multiset<nat>, all: multiset<nat>)
    ensures (multiset{} + refused + all) + held == held + refused + all
    ensures multiset{} + refused + (all + held) == held + refused + all
    ensures multiset{} + (refused + held) + all == held + refused + all
  {
  }

  lemma {:induction false} AcceptInv(s: Server)
    requires Inv(s) && CanMove(s, Accept)
    ensures Inv(Moved(s, Accept))
  {
    hide ThreadPool.Inv;
    Rehomed(multiset{s.total}, s.refused, multiset(s.pool.accepted));
  }

  lemma {:induction false} RefusedInv(s: Server)
    requires Inv(s) && CanMove(s, Submit) && Full(s.pool)
    ensures Inv(Moved(s, Submit))
  {
    hide ThreadPool.Inv, FirstSockets, Full;
  }

  lemma {:induction false} QueuedInv(s: Server)
    requires Inv(s) && CanMove(s, Submit) && !Full(s.pool)
    ensures Inv(Moved(s, Submit))
  {
    hide ThreadPool.Inv, FirstSockets, Full;
    var sock := s.phase.sock;
    StepInv(s.pool, Enqueue(sock));
    assert multiset(s.pool.accepted + [sock]) == multiset(s.pool.accepted) + multiset{sock};
    Rehomed(multiset{sock}, s.refused, multiset(s.pool.accepted));
  }

  lemma {:induction false} OneNotifiedInv(s: Server, v: nat)
    requires Inv(s) && CanMove(s, Notify(Some(v)))
    ensures Inv(Moved(s, Notify(Some(v))))
  {
    hide ThreadPool.Inv, FirstSockets, Joined;
    StepInv(s.pool, NotifyOne(v));
  }

  lemma {:induction false} NobodyNotifiedInv(s: Server)
    requires Inv(s) && CanMove(s, Notify(None))
    ensures Inv(Moved(s, Notify(None)))
  {
    hide ThreadPool.Inv, FirstSockets, Joined;
    StepInv(s.pool, NotifyNobody);
  }

  lemma {:induction false} NotifiedInv(s: Server, w: Option<nat>)
    requires Inv(s) && CanMove(s, Notify(w))
    ensures Inv(Moved(s, Notify(w)))
  {
    hide Inv, Moved;
    if w.Some? { OneNotifiedInv(s, w.value); } else { NobodyNotifiedInv(s); }
  }

  lemma {:induction false} CloseInv(s: Server)
    requires Inv(s) && CanMove(s, CloseRefused)
    ensures Inv(Moved(s, CloseRefused))
  {
    hide ThreadPool.Inv, FirstSockets;
    Rehomed(multiset{s.phase.sock}, s.refused, multiset(s.pool.accepted));
  }

  lemma {:induction false} StopInv(s: Server, m: Move)
    requires Inv(s) && CanMove(s, m) && (m.StopListening? || m.Shut? || m.Broadcast? || m.Join?)
    ensures Inv(Moved(s, m))
  {
    hide ThreadPool.Inv, FirstSockets;
    match m
    case StopListening =>
    case Shut => ShutInv(s);
    case Broadcast => BroadcastInv(s);
    case Join =>
  }

  lemma {:induction false} ShutInv(s: Server)
    requires Inv(s) && CanMove(s, Shut)
    ensures Inv(Moved(s, Shut))
  {
    hide ThreadPool.Inv, FirstSockets;
    StepInv(s.pool, SetShutdown);
  }

  lemma {:induction false} BroadcastInv(s: Server)
    requires Inv(s) && CanMove(s, Broadcast)
    ensures Inv(Moved(s, Broadcast))
  {
    hide ThreadPool.Inv, FirstSockets, Joined;
    StepInv(s.pool, NotifyAll);
  }

  lemma {:induction false} WorkInv(s: Server, step: Step)
    requires Inv(s) && CanMove(s, Work(step))
    ensures Inv(Moved(s, Work(step)))
  {
    hide ThreadPool.Inv, FirstSockets;
    StepInv(s.pool, step);
    StillJoined(s.pool, step);
  }

  lemma {:induction false} MoveInv(s: Server, m: Move)
    requires Inv(s) && CanMove(s, m)
    ensures Inv(Moved(s, m))
  {
    hide Inv, Moved, CanMove;
    match m
    case Accept => AcceptInv(s);
    case Submit => if Full(s.pool) { RefusedInv(s); } else { QueuedInv(s); }
    case Work(step) => WorkInv(s, step);
    case Notify(w) => NotifiedInv(s, w);
    case CloseRefused => CloseInv(s);
    case _ => StopInv(s, m);
  }

  lemma {:induction false} RunInv(s: Server, moves: seq<Move>)
    requires Inv(s) && IsRun(s, moves)
    ensures Inv(After(s, moves))
    decreases |moves|
  {
    if moves != [] {
      MoveInv(s, moves[0]);
      RunInv(Moved(s, moves[0]), moves[1..]);
    }
  }

  lemma {:induction false} OnceEach(k: nat, sock: nat)
    ensures FirstSockets(k)[sock] == if sock < k then 1 else 0
  {
    if k > 0 { OnceEach(k - 1, sock); }
  }

  lemma {:induction false} SameCrew(s: Server, moves: seq<Move>)
    requires IsRun(s, moves)
    ensures |After(s, moves).pool.workers| == |s.pool.workers|
    decreases |moves|
  {
    if moves != [] { SameCrew(Moved(s, moves[0]), moves[1..]); }
  }

  lemma AcceptedCover(s: Server)
    requires Inv(s)
    ensures s.pool.finished <= multiset(s.pool.accepted)
  {
    assert multiset(s.pool.started + s.pool.queue) == multiset(s.pool.started) + multiset(s.pool.queue);
  }

  /** Nobody has run a job of a pool without workers. */
  lemma NothingFinished(p: Pool)
    requires ThreadPool.Inv(p) && p.workers == [] && p.started == []
    ensures p.finished == multiset{}
  {
    assert p.finished + Running(p.workers) == p.finished + multiset{} == p.finished;
  }

  /** At every moment no socket has been closed twice, whatever the interleaving was. When the
      listener returns, each accepted one has been closed exactly once, except, in a pool
      without workers, those handed to the pool. */
  lemma ClosedExactlyOnce(n: nat, maxQueued: nat, moves: seq<Move>, sock: nat)
    requires IsRun(Opening(n, maxQueued), moves)
    ensures var s := After(Opening(n, maxQueued), moves);
            Closed(s)[sock] <= (if sock < s.total then 1 else 0)
            && (s.phase == Returned ==>
                  Closed(s)[sock] == if sock < s.total && (n > 0 || sock !in s.pool.accepted) then 1 else 0)
  {
    var s := After(Opening(n, maxQueued), moves);
    OpeningInv(n, maxQueued);
    RunInv(Opening(n, maxQueued), moves);
    SameCrew(Opening(n, maxQueued), moves);
    OnceEach(s.total, sock);
    AcceptedCover(s);
    if s.phase == Returned {
      if n > 0 { JoinedMeansDone(s.pool); } else { NothingFinished(s.pool); }
    }
  }
}
