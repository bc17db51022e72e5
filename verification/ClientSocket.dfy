/** Who may close the client's socket: the request mutex (recursive, held during a send and
    its nested redirects), the socket mutex, the in-flight count and the owner thread, as a
    state machine whose steps are the critical sections. */
module ClientSocket {
  import opened Bytes

  type Thread = nat

  /** An open socket is named by its descriptor; `live` is lost when it is shut down. */
  datatype Socket = Closed | Open(fd: nat, live: bool)

  /** One activation of the send function on a thread's stack. */
  datatype Frame = Entering | Active | Leaving

  datatype Client = Client(sock: Socket, nextFd: nat, inFlight: int, owner: Option<Thread>, shouldClose: bool,
                           holder: Option<Thread>, depth: nat, stacks: map<Thread, seq<Frame>>)

  datatype Step =
    | Lock(t: Thread)                                // the request mutex, also from inside a request
    | Begin(t: Thread, alive: bool, connects: bool)  // first critical section of a send
    | CloseMid(t: Thread)                            // the peer announced the end of the connection
    | End(t: Thread, closing: bool)                  // last critical section of a send
    | Unlock(t: Thread)
    | Stop(t: Thread)

  const FRESH := Client(Closed, 0, 0, None, false, None, 0, map[])

  function Stack(c: Client, t: Thread): seq<Frame> { if t in c.stacks then c.stacks[t] else [] }

  function Top(c: Client, t: Thread): Option<Frame> {
    var s := Stack(c, t);
    if s == [] then None else Some(s[|s| - 1])
  }

  function Replace(s: seq<Frame>, top: Frame): seq<Frame>
    requires s != []
  {
    s[..|s| - 1] + [top]
  }

  /** A socket that was shut down may still look alive, while bytes wait to be read. */
  predicate Enabled(c: Client, s: Step) {
    match s
    case Lock(t) => (c.holder == None || c.holder == Some(t)) && (Stack(c, t) == [] || Top(c, t) == Some(Active))
    case Begin(t, alive, _) => Top(c, t) == Some(Entering) && (alive ==> c.sock.Open?)
    case CloseMid(t) => Top(c, t) == Some(Active)
    case End(t, _) => Top(c, t) == Some(Active)
    case Unlock(t) => Top(c, t) == Some(Leaving)
    case Stop(t) => true
  }

  function WithTop(c: Client, t: Thread, top: Frame): Client
    requires Stack(c, t) != []
  {
    c.(stacks := c.stacks[t := Replace(Stack(c, t), top)])
  }

  function Began(c: Client, t: Thread): Client
    requires Stack(c, t) != []
  {
    WithTop(c.(inFlight := c.inFlight + 1, owner := Some(t)), t, Active)
  }

  function Next(c: Client, s: Step): Client
    requires Enabled(c, s)
  {
    match s
    case Lock(t) => c.(holder := Some(t), depth := c.depth + 1, stacks := c.stacks[t := Stack(c, t) + [Entering]])
    case Begin(t, alive, connects) =>
      var d := c.(shouldClose := false);
      if alive then Began(d, t)
      else if connects then Began(d.(sock := Open(c.nextFd, true), nextFd := c.nextFd + 1), t)
      else WithTop(d.(sock := Closed), t, Leaving)
    case CloseMid(t) => c.(sock := Closed)
    case End(t, closing) =>
      var d := WithTop(c.(inFlight := c.inFlight - 1, owner := if c.inFlight <= 1 then None else c.owner), t, Leaving);
      if c.shouldClose || closing then d.(sock := Closed) else d
    case Unlock(t) =>
      var stack := Stack(c, t);
      var depth := if c.depth > 0 then c.depth - 1 else 0;
      c.(depth := depth, holder := if depth == 0 then None else c.holder, stacks := c.stacks[t := stack[..|stack| - 1]])
    case Stop(t) =>
      if c.inFlight > 0 then
        c.(shouldClose := true, sock := if c.sock.Open? then c.sock.(live := false) else c.sock)
      else c.(sock := Closed)
  }

  /** The assertion in front of every close. */
  predicate MayClose(inFlight: int, owner: Option<Thread>, t: Thread) { inFlight == 0 || owner == Some(t) }

  /** All assertions a step runs through. */
  predicate AssertsHold(c: Client, s: Step) {
    match s
    case Lock(_) => true
    case Begin(t, alive, connects) =>
      (c.sock.Open? && !alive ==> MayClose(c.inFlight, c.owner, t))
      && (alive || connects ==> (c.inFlight > 1 ==> c.owner == Some(t)))
    case CloseMid(t) => MayClose(c.inFlight, c.owner, t)
    case End(t, closing) =>
      var left := c.inFlight - 1;
      (left <= 0 ==> left == 0)
      && (c.shouldClose || closing ==> MayClose(left, if left <= 0 then None else c.owner, t))
    case Unlock(_) => true
    case Stop(t) => c.inFlight <= 0 ==> MayClose(c.inFlight, c.owner, t)
  }

  predicate IsRun(c: Client, steps: seq<Step>)
    decreases |steps|
  {
    steps == [] || (Enabled(c, steps[0]) && IsRun(Next(c, steps[0]), steps[1..]))
  }

  function After(c: Client, steps: seq<Step>): Client
    requires IsRun(c, steps)
    decreases |steps|
  {
    if steps == [] then c else After(Next(c, steps[0]), steps[1..])
  }

  // ------------------------------------------------------------------ invariant

  /** All frames but the top one are requests waiting for a nested one. */
  predicate Nested(s: seq<Frame>) { forall i :: 0 <= i < |s| - 1 ==> s[i] == Active }

  function ActiveFrames(s: seq<Frame>): nat {
    if s == [] then 0
    else if s[|s| - 1] == Active then |s| else |s| - 1
  }

  /** Only the thread that holds the request mutex is inside a send; the count is the number
      of its active frames; and while the count is not zero the owner is that thread. */
  ghost predicate Inv(c: Client) {
    match c.holder
    case None =>
      c.depth == 0 && c.inFlight == 0 && c.owner == None && forall t :: Stack(c, t) == []
    case Some(h) =>
      c.depth == |Stack(c, h)| > 0 && Nested(Stack(c, h))
      && c.inFlight == ActiveFrames(Stack(c, h))
      && c.owner == (if c.inFlight > 0 then Some(h) else None)
      && forall t :: t != h ==> Stack(c, t) == []
  }

  lemma FreshInv()
    ensures Inv(FRESH)
  {
  }

  /** A thread that is inside a send is the one holding the request mutex. */
  lemma InsideHolds(c: Client, t: Thread)
    requires Inv(c) && Stack(c, t) != []
    ensures c.holder == Some(t)
  {
  }

  lemma OthersIdle(c: Client, d: Client, t: Thread)
    requires Inv(c) && c.holder == Some(t) && d.stacks == c.stacks[t := Stack(d, t)]
    ensures forall u :: u != t ==> Stack(d, u) == []
  {
    forall u | u != t ensures Stack(d, u) == [] { assert Stack(c, u) == []; }
  }

  lemma LockInv(c: Client, t: Thread)
    requires Inv(c) && Enabled(c, Lock(t))
    ensures Inv(Next(c, Lock(t)))
  {
    var d := Next(c, Lock(t));
    var s := Stack(c, t);
    assert Stack(d, t) == s + [Entering];
    assert s == [] || s[|s| - 1] == Active;
    forall u | u != t ensures Stack(d, u) == [] { assert Stack(c, u) == []; }
  }

  lemma TopInv(c: Client, d: Client, t: Thread, top: Frame)
    requires Inv(c) && Stack(c, t) != [] && d.stacks == c.stacks[t := Replace(Stack(c, t), top)]
    ensures c.holder == Some(t) && |Stack(d, t)| == |Stack(c, t)| && Nested(Stack(d, t))
    ensures ActiveFrames(Stack(d, t)) == |Stack(c, t)| - if top == Active then 0 else 1
    ensures forall u :: u != t ==> Stack(d, u) == []
  {
    InsideHolds(c, t);
    OthersIdle(c, d, t);
  }

  lemma UnlockInv(c: Client, t: Thread)
    requires Inv(c) && Enabled(c, Unlock(t))
    ensures Inv(Next(c, Unlock(t)))
  {
    var d := Next(c, Unlock(t));
    var s := Stack(c, t);
    InsideHolds(c, t);
    OthersIdle(c, d, t);
    assert Stack(d, t) == s[..|s| - 1];
    assert |s| > 1 ==> s[|s| - 2] == Active;
  }

  lemma QuietInv(c: Client, s: Step)
    requires Inv(c) && Enabled(c, s) && (s.CloseMid? || s.Stop?)
    ensures Inv(Next(c, s))
  {
    var d := Next(c, s);
    assert d.stacks == c.stacks;
    forall u ensures Stack(d, u) == Stack(c, u) {}
  }

  lemma StepInv(c: Client, s: Step)
    requires Inv(c) && Enabled(c, s)
    ensures Inv(Next(c, s))
  {
    match s
    case Lock(t) => LockInv(c, t);
    case Begin(t, alive, connects) => TopInv(c, Next(c, s), t, if alive || connects then Active else Leaving);
    case CloseMid(t) => QuietInv(c, s);
    case End(t, _) => TopInv(c, Next(c, s), t, Leaving);
    case Unlock(t) => UnlockInv(c, t);
    case Stop(t) => QuietInv(c, s);
  }

  lemma {:induction false} RunInv(c: Client, steps: seq<Step>)
    requires Inv(c) && IsRun(c, steps)
    ensures Inv(After(c, steps))
    decreases |steps|
  {
    if steps != [] {
      StepInv(c, steps[0]);
      RunInv(Next(c, steps[0]), steps[1..]);
    }
  }

  // --------------------------------------------------------------- main results

  /** In every reachable state the in-flight count is never negative, and while it is not
      zero its recorded owner is the thread that holds the request mutex. */
  lemma OwnerHoldsMutex(steps: seq<Step>)
    requires IsRun(FRESH, steps)
    ensures var c := After(FRESH, steps);
            c.inFlight >= 0 && (c.inFlight > 0 ==> c.holder.Some? && c.owner == c.holder)
            && (c.inFlight == 0 ==> c.owner == None)
  {
    FreshInv();
    RunInv(FRESH, steps);
  }

  /** No assertion ever fails, in any interleaving of requests, redirects and stops. */
  lemma AssertsNeverFail(steps: seq<Step>, s: Step)
    requires IsRun(FRESH, steps) && Enabled(After(FRESH, steps), s)
    ensures AssertsHold(After(FRESH, steps), s)
  {
    var c := After(FRESH, steps);
    FreshInv();
    RunInv(FRESH, steps);
    if !s.Stop? && !s.Lock? { InsideHolds(c, s.t); }
  }

  predicate InRequest(c: Client, t: Thread) { Active in Stack(c, t) }

  /** While a thread is in a request, no step of another thread closes its descriptor or
      puts a different one in its place; at most it is shut down. */
  lemma NobodyElseCloses(steps: seq<Step>, s: Step, t: Thread)
    requires IsRun(FRESH, steps) && Enabled(After(FRESH, steps), s)
    requires InRequest(After(FRESH, steps), t) && s.t != t
    ensures var before, after := After(FRESH, steps).sock, Next(After(FRESH, steps), s).sock;
            before.Open? == after.Open? && (before.Open? ==> after.fd == before.fd)
  {
    var c := After(FRESH, steps);
    FreshInv();
    RunInv(FRESH, steps);
    InsideHolds(c, t);
    assert Stack(c, s.t) == [];
    assert c.inFlight > 0;
  }

  /** A stop met a request in flight, and no send has begun since. */
  ghost predicate StoppedSince(c: Client, steps: seq<Step>)
    requires IsRun(c, steps)
  {
    exists i :: 0 <= i < |steps| && StopAt(c, steps, i) && !BeginsIn(steps, i + 1)
  }

  predicate BeginsIn(steps: seq<Step>, from: nat) { exists j :: from <= j < |steps| && steps[j].Begin? }

  predicate StopAt(c: Client, steps: seq<Step>, i: nat)
    requires i < |steps|
  {
    steps[i].Stop? && IsRun(c, steps[..i]) && After(c, steps[..i]).inFlight > 0
  }

  lemma {:induction false} StopAtLater(c: Client, steps: seq<Step>, i: nat)
    requires steps != [] && Enabled(c, steps[0]) && 0 < i < |steps|
    ensures StopAt(c, steps, i) <==> StopAt(Next(c, steps[0]), steps[1..], i - 1)
  {
    hide Enabled, Next;
    assert steps[..i][1..] == steps[1..][..i - 1];
  }

  lemma BeginsLater(steps: seq<Step>, from: nat)
    requires steps != [] && from > 0
    ensures BeginsIn(steps, from) <==> BeginsIn(steps[1..], from - 1)
    ensures BeginsIn(steps, 0) <==> steps[0].Begin? || BeginsIn(steps, 1)
  {
    if j :| from <= j < |steps| && steps[j].Begin? { assert steps[1..][j - 1].Begin?; }
    if j :| from - 1 <= j < |steps[1..]| && steps[1..][j].Begin? { assert steps[j + 1].Begin?; }
  }

  lemma {:induction false} StoppedSinceStep(c: Client, steps: seq<Step>)
    requires steps != [] && IsRun(c, steps)
    ensures StoppedSince(c, steps) <==>
            StoppedSince(Next(c, steps[0]), steps[1..])
            || (steps[0].Stop? && c.inFlight > 0 && !BeginsIn(steps, 1))
  {
    hide Enabled, Next, BeginsIn, StopAt;
    var d, more := Next(c, steps[0]), steps[1..];
    assert StopAt(c, steps, 0) <==> steps[0].Stop? && c.inFlight > 0 by { StopAtOnce(c, steps); }
    forall i | 0 < i < |steps|
      ensures StopAt(c, steps, i) && !BeginsIn(steps, i + 1) <==> StopAt(d, more, i - 1) && !BeginsIn(more, i)
    {
      StopAtLater(c, steps, i);
      BeginsLater(steps, i + 1);
    }
    if StoppedSince(c, steps) {
      var i :| 0 <= i < |steps| && StopAt(c, steps, i) && !BeginsIn(steps, i + 1);
      if i > 0 { assert StopAt(d, more, i - 1) && !BeginsIn(more, i - 1 + 1); }
    }
    if StoppedSince(d, more) {
      var i :| 0 <= i < |more| && StopAt(d, more, i) && !BeginsIn(more, i + 1);
      assert StopAt(c, steps, i + 1) && !BeginsIn(steps, i + 1 + 1);
    }
  }

  lemma StopAtOnce(c: Client, steps: seq<Step>)
    requires steps != []
    ensures StopAt(c, steps, 0) <==> steps[0].Stop? && c.inFlight > 0
  {
    assert steps[..0] == [];
  }

  lemma FlagAfter(c: Client, s: Step)
    requires Enabled(c, s)
    ensures Next(c, s).shouldClose <==> !s.Begin? && (c.shouldClose || (s.Stop? && c.inFlight > 0))
  {
  }

  lemma {:induction false} FlagIsStopped(c: Client, steps: seq<Step>)
    requires IsRun(c, steps)
    ensures After(c, steps).shouldClose <==> StoppedSince(c, steps) || (c.shouldClose && !BeginsIn(steps, 0))
    decreases |steps|
  {
    hide Enabled, Next, BeginsIn, StoppedSince;
    if steps == [] {
      assert !StoppedSince(c, steps) && !BeginsIn(steps, 0) by { NothingHappened(c); }
    } else {
      FlagIsStopped(Next(c, steps[0]), steps[1..]);
      FlagAfter(c, steps[0]);
      StoppedSinceStep(c, steps);
      BeginsLater(steps, 1);
    }
  }

  lemma NothingHappened(c: Client)
    ensures !StoppedSince(c, []) && !BeginsIn([], 0)
  {
  }

  /** When a request ends the socket is closed exactly if it was closed already, if the
      request closes it for its own reasons, or if a stop met a request in flight after the
      last send, nested ones included, began. Otherwise it stays as it is. */
  lemma {:induction false} ClosedAfterEnd(steps: seq<Step>, t: Thread, closing: bool)
    requires IsRun(FRESH, steps) && Enabled(After(FRESH, steps), End(t, closing))
    ensures var c := After(FRESH, steps);
            var closes := closing || StoppedSince(FRESH, steps);
            Next(c, End(t, closing)).sock == if closes then Closed else c.sock
  {
    hide StoppedSince;
    FlagIsStopped(FRESH, steps);
  }

  lemma {:induction false} FlagStays(c: Client, steps: seq<Step>)
    requires IsRun(c, steps) && c.shouldClose && forall i :: 0 <= i < |steps| ==> !steps[i].Begin?
    ensures After(c, steps).shouldClose
    decreases |steps|
  {
    if steps != [] {
      assert !steps[0].Begin?;
      assert forall i :: 0 <= i < |steps[1..]| ==> steps[1..][i] == steps[i + 1];
      FlagStays(Next(c, steps[0]), steps[1..]);
    }
  }

  /** A stop during a request that begins no nested one leaves the socket closed at its end. */
  lemma StopClosesAtEnd(c: Client, u: Thread, steps: seq<Step>, t: Thread, closing: bool)
    requires Inv(c) && c.inFlight > 0 && IsRun(Next(c, Stop(u)), steps)
    requires forall i :: 0 <= i < |steps| ==> !steps[i].Begin?
    requires Enabled(After(Next(c, Stop(u)), steps), End(t, closing))
    ensures Next(After(Next(c, Stop(u)), steps), End(t, closing)).sock == Closed
  {
    FlagStays(Next(c, Stop(u)), steps);
  }

  // ---------------------------------------------------------- what a stop does at once

  /** Nothing can be read from or written to the socket, and it is closed unless a request that
      will close it is in flight. */
  predicate Halted(c: Client) { c.sock.Open? ==> !c.sock.live && c.shouldClose && c.inFlight > 0 }

  lemma HaltedStays(c: Client, s: Step)
    requires Enabled(c, s) && !s.Begin? && (Halted(c) || s.Stop?)
    ensures Halted(Next(c, s))
  {
  }

  lemma {:induction false} HaltedRun(c: Client, steps: seq<Step>)
    requires IsRun(c, steps) && Halted(c) && !BeginsIn(steps, 0)
    ensures Halted(After(c, steps))
    decreases |steps|
  {
    if steps != [] {
      assert !steps[0].Begin?;
      HaltedStays(c, steps[0]);
      BeginsLater(steps, 1);
      HaltedRun(Next(c, steps[0]), steps[1..]);
    }
  }

  lemma {:induction false} RunParts(c: Client, steps: seq<Step>, i: nat)
    requires IsRun(c, steps) && i < |steps|
    ensures IsRun(c, steps[..i]) && Enabled(After(c, steps[..i]), steps[i])
    ensures var d := Next(After(c, steps[..i]), steps[i]);
            IsRun(d, steps[i + 1..]) && After(d, steps[i + 1..]) == After(c, steps)
    decreases i
  {
    hide Enabled, Next;
    if i == 0 {
      assert steps[..0] == [];
    } else {
      RunParts(Next(c, steps[0]), steps[1..], i - 1);
      assert steps[..i][1..] == steps[1..][..i - 1] && steps[..i][0] == steps[0];
      assert steps[1..][i - 1 + 1..] == steps[i + 1..];
    }
  }

  /** Once there was a stop and no send has begun since, nothing can be read or written any more,
      and the socket is closed in every state without a request in flight, whether or not there
      was one when the stop came. */
  lemma {:induction false} StopCloses(steps: seq<Step>, i: nat)
    requires IsRun(FRESH, steps) && i < |steps| && steps[i].Stop? && !BeginsIn(steps, i + 1)
    ensures var c := After(FRESH, steps);
            (c.sock.Open? ==> !c.sock.live) && (c.inFlight == 0 ==> c.sock == Closed)
  {
    hide Enabled, Next;
    RunParts(FRESH, steps, i);
    var c := After(FRESH, steps[..i]);
    HaltedStays(c, steps[i]);
    var more := steps[i + 1..];
    forall j | 0 <= j < |more| ensures !more[j].Begin? { assert more[j] == steps[i + 1 + j]; }
    HaltedRun(Next(c, steps[i]), more);
  }

  lemma {:induction false} ClosedRun(c: Client, steps: seq<Step>)
    requires IsRun(c, steps) && c.sock == Closed && !BeginsIn(steps, 0)
    ensures After(c, steps).sock == Closed
    decreases |steps|
  {
    if steps != [] {
      assert !steps[0].Begin?;
      BeginsLater(steps, 1);
      ClosedRun(Next(c, steps[0]), steps[1..]);
    }
  }

  /** A socket closed in the middle or at the end of a request stays closed until a send begins. */
  lemma {:induction false} RequestCloses(steps: seq<Step>, i: nat)
    requires IsRun(FRESH, steps) && i < |steps| && !BeginsIn(steps, i + 1)
    requires steps[i].CloseMid? || (steps[i].End? && steps[i].closing)
    ensures After(FRESH, steps).sock == Closed
  {
    hide Enabled;
    RunParts(FRESH, steps, i);
    var more := steps[i + 1..];
    forall j | 0 <= j < |more| ensures !more[j].Begin? { assert more[j] == steps[i + 1 + j]; }
    ClosedRun(Next(After(FRESH, steps[..i]), steps[i]), more);
  }

  /** A stop during a request leaves it its descriptor, shut down, and itself changes nothing
      else that the request could see. */
  lemma StopInFlight(steps: seq<Step>, u: Thread)
    requires IsRun(FRESH, steps) && After(FRESH, steps).inFlight > 0
    ensures var c := After(FRESH, steps);
            var d := Next(c, Stop(u));
            d.sock == (if c.sock.Open? then Open(c.sock.fd, false) else Closed)
            && d.inFlight == c.inFlight && d.owner == c.owner && d.holder == c.holder && d.stacks == c.stacks
  {
  }

  // ------------------------------------------------------------------ what a send begins with

  lemma {:induction false} DescriptorsUsed(c: Client, steps: seq<Step>, i: nat)
    requires IsRun(c, steps) && i <= |steps| && (c.sock.Open? ==> c.sock.fd < c.nextFd)
    ensures IsRun(c, steps[..i])
    ensures var d, e := After(c, steps[..i]), After(c, steps);
            c.nextFd <= d.nextFd <= e.nextFd && (d.sock.Open? ==> d.sock.fd < d.nextFd)
    decreases |steps|
  {
    if i == 0 {
      assert steps[..0] == [];
      if steps != [] { DescriptorsUsed(Next(c, steps[0]), steps[1..], 0); }
    } else {
      DescriptorsUsed(Next(c, steps[0]), steps[1..], i - 1);
      assert steps[..i][1..] == steps[1..][..i - 1] && steps[..i][0] == steps[0];
    }
  }

  /** A send goes on with a socket that looks alive; otherwise it connects and has a descriptor
      of its own, one that was never in use before; and if that fails it has none and is not
      counted. */
  lemma {:induction false} SendBegins(steps: seq<Step>, t: Thread, alive: bool, connects: bool, i: nat)
    requires IsRun(FRESH, steps) && Enabled(After(FRESH, steps), Begin(t, alive, connects)) && i <= |steps|
    ensures IsRun(FRESH, steps[..i])
    ensures var c, earlier := After(FRESH, steps), After(FRESH, steps[..i]).sock;
            var d := Next(c, Begin(t, alive, connects));
            if alive then d.sock == c.sock && d.sock.Open? && d.inFlight == c.inFlight + 1
            else if connects then
              d.sock.Open? && d.sock.live && d.inFlight == c.inFlight + 1
              && (earlier.Open? ==> earlier.fd != d.sock.fd)
            else d.sock == Closed && d.inFlight == c.inFlight
  {
    DescriptorsUsed(FRESH, steps, i);
  }

  const FORGOTTEN: seq<Step> := [
    Lock(1), Begin(1, false, true), Stop(2),
    Lock(1), Begin(1, false, true), End(1, false), Unlock(1),
    End(1, false), Unlock(1)]

  /** A stop that comes before a redirect begins is forgotten: the nested send clears the
      flag and connects again, and the socket is still open when all is over. */
  lemma StopForgotten()
    ensures IsRun(FRESH, FORGOTTEN)
    ensures After(FRESH, FORGOTTEN).sock == Open(1, true) && After(FRESH, FORGOTTEN).inFlight == 0
    ensures After(FRESH, FORGOTTEN).holder == None
  {
    var c1 := Next(FRESH, Lock(1));
    var c2 := Next(c1, Begin(1, false, true));
    var c3 := Next(c2, Stop(2));
    var c4 := Next(c3, Lock(1));
    var c5 := Next(c4, Begin(1, false, true));
    var c6 := Next(c5, End(1, false));
    var c7 := Next(c6, Unlock(1));
    var c8 := Next(c7, End(1, false));
    var c9 := Next(c8, Unlock(1));
    assert c9.sock == Open(1, true) && c9.inFlight == 0 && c9.holder == None;
  }
}
