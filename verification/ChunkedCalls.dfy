/** Which content providers the chunked writer carries through to the reader. */
module ChunkedCalls {
  import opened Bytes
  import opened Chunked
  import opened ChunkedReader
  import opened ChunkedRoundTrip

  function AllOps(calls: seq<ProviderCall>, n: nat): seq<SinkOp>
    requires n <= |calls|
    decreases |calls| - n
  {
    if n == |calls| then [] else calls[n].ops + AllOps(calls, n + 1)
  }

  /** No call ends on an empty write or a `done` before the last one. */
  predicate KeepsGoing(calls: seq<ProviderCall>) {
    forall i :: 0 <= i < |calls| ==> calls[i].answer && (i + 1 < |calls| ==> AvailableAfter(true, calls[i].ops))
  }

  lemma {:induction false} AllExecuted(calls: seq<ProviderCall>, n: nat)
    requires n <= |calls| && KeepsGoing(calls)
    ensures Executed(calls, n, true) == AllOps(calls, n)
    ensures Accepted(calls, n, true)
    decreases |calls| - n
  {
    hide AvailableAfter;
    if n < |calls| {
      AllExecuted(calls, n + 1);
      if n + 1 == |calls| { assert AllOps(calls, n + 1) == []; }
    }
  }

  // ------------------------------------------------ the operations of all calls

  function OpsOf(calls: seq<ProviderCall>): seq<SinkOp> { AllOps(calls, 0) }

  lemma {:induction false} AllOpsShift(a: seq<ProviderCall>, b: seq<ProviderCall>, n: nat)
    requires n <= |b|
    ensures AllOps(a + b, |a| + n) == AllOps(b, n)
    decreases |b| - n
  {
    if n < |b| { AllOpsShift(a, b, n + 1); }
  }

  lemma {:induction false} AllOpsConcat(a: seq<ProviderCall>, b: seq<ProviderCall>, n: nat)
    requires n <= |a|
    ensures AllOps(a + b, n) == AllOps(a, n) + AllOps(b, 0)
    decreases |a| - n
  {
    if n < |a| {
      AllOpsConcat(a, b, n + 1);
      Append3(a[n].ops, AllOps(a, n + 1), AllOps(b, 0));
    } else {
      AllOpsShift(a, b, 0);
    }
  }

  lemma OpsOfConcat(a: seq<ProviderCall>, b: seq<ProviderCall>)
    ensures OpsOf(a + b) == OpsOf(a) + OpsOf(b)
  {
    AllOpsConcat(a, b, 0);
  }

  lemma OpsOfOne(call: ProviderCall)
    ensures OpsOf([call]) == call.ops && OpsOf([]) == []
  {
    assert AllOps([call], 1) == [];
  }

  // --------------------------------------------------- the call that ends the body

  predicate Good(call: ProviderCall) { call.answer && AvailableAfter(true, call.ops) }

  predicate OnlyWrites(ops: seq<SinkOp>) { forall k :: 0 <= k < |ops| ==> ops[k].Write? }

  predicate GoodUpTo(calls: seq<ProviderCall>, n: nat)
    requires n <= |calls|
  {
    forall k :: 0 <= k < n ==> Good(calls[k])
  }

  predicate WritesUpTo(calls: seq<ProviderCall>, n: nat)
    requires n <= |calls|
  {
    forall k :: 0 <= k < n ==> OnlyWrites(calls[k].ops)
  }

  /** The first call from the `n`-th on that does more than write, or |calls|. */
  function Ending(calls: seq<ProviderCall>, n: nat): (k: nat)
    requires n <= |calls|
    ensures n <= k <= |calls|
    decreases |calls| - n
  {
    if n < |calls| && OnlyWrites(calls[n].ops) then Ending(calls, n + 1) else n
  }

  lemma {:induction false} EndingIs(calls: seq<ProviderCall>, n: nat, k: nat)
    requires n <= k < |calls| && WritesUpTo(calls, k) && !OnlyWrites(calls[k].ops)
    ensures Ending(calls, n) == k
    decreases k - n
  {
    hide OnlyWrites;
    if n < k { EndingIs(calls, n + 1, k); }
  }

  /** The `k`-th call is answered and ends the body, and the calls from the `n`-th on before it
      are answered and leave data available. */
  predicate EndsAt(calls: seq<ProviderCall>, n: nat, k: nat) {
    k < |calls| && calls[k].answer && Terminated(calls[k].ops) && forall j :: n <= j < k ==> Good(calls[j])
  }

  /** Writes in front of operations do not change whether these end the body. */
  lemma TerminatedBehind(a: seq<SinkOp>, b: seq<SinkOp>)
    requires OnlyWrites(a)
    ensures Terminated(a + b) <==> Terminated(b)
    ensures Terminated(b) ==> b != []
  {
    var ops, m := a + b, FirstDone(b, 0);
    assert forall i :: 0 <= i < |a| ==> ops[i] == a[i];
    assert forall i :: |a| <= i < |ops| ==> ops[i] == b[i - |a|];
    assert m < |b| ==> !ops[|a| + m].Write?;
    assert FirstDone(ops, 0) == |a| + m;
    assert forall i :: m < i < |b| ==> b[i] == ops[|a| + i];
  }

  /** What ends the body within a call decides, whatever comes behind. */
  lemma TerminatedBefore(a: seq<SinkOp>, b: seq<SinkOp>)
    requires !OnlyWrites(a)
    ensures Terminated(a + b) ==> Terminated(a)
  {
    var ops, m := a + b, FirstDone(a, 0);
    assert forall i :: 0 <= i < |a| ==> ops[i] == a[i];
    assert FirstDone(ops, 0) == m;
  }

  lemma TerminatedStops(ops: seq<SinkOp>)
    requires Terminated(ops)
    ensures !AvailableAfter(true, ops) && !OnlyWrites(ops)
  {
    assert !ops[FirstDone(ops, 0)].Write?;
  }

  lemma {:induction false} EndsFrom(calls: seq<ProviderCall>, n: nat)
    requires n <= |calls|
    ensures var k, ops := Ending(calls, n), Executed(calls, n, true);
            Accepted(calls, n, true) && Terminated(ops) <==> EndsAt(calls, n, k)
    decreases |calls| - n
  {
    hide AvailableAfter, Terminated, OnlyWrites;
    if n == |calls| {
      TerminatedBehind([], []);
    } else {
      var now, next := calls[n].ops, AvailableAfter(true, calls[n].ops);
      var later := if calls[n].answer then Executed(calls, n + 1, next) else [];
      if OnlyWrites(now) {
        EndsFrom(calls, n + 1);
        TerminatedBehind(now, later);
      } else {
        TerminatedBefore(now, later);
        if Terminated(now) { TerminatedStops(now); }
        assert now + [] == now;
      }
    }
  }

  lemma {:induction false} ExecutedUpTo(calls: seq<ProviderCall>, n: nat, k: nat)
    requires n <= k && EndsAt(calls, n, k)
    ensures Executed(calls, n, true) == AllOps(calls[..k + 1], n)
    decreases k - n
  {
    hide AvailableAfter, Terminated;
    var upTo := calls[..k + 1];
    assert upTo[n] == calls[n];
    if n < k {
      assert Good(calls[n]);
      ExecutedUpTo(calls, n + 1, k);
    } else {
      assert !AvailableAfter(true, calls[k].ops) by { TerminatedStops(calls[k].ops); }
      assert AllOps(upTo, k + 1) == [];
    }
  }

  /** Any provider: the loop succeeds with a terminated body exactly when the first call that
      does more than write is reached, is answered and ends the body. The calls behind it are
      not made. */
  lemma {:induction false} CompletedIff(calls: seq<ProviderCall>)
    ensures var k, ops := Ending(calls, 0), Executed(calls, 0, true);
            (Accepted(calls, 0, true) && Terminated(ops) <==> EndsAt(calls, 0, k))
            && (EndsAt(calls, 0, k) ==> ops == OpsOf(calls[..k + 1]))
  {
    hide Executed, Accepted, Ending;
    EndsFrom(calls, 0);
    var k := Ending(calls, 0);
    if EndsAt(calls, 0, k) { ExecutedUpTo(calls, 0, k); }
  }

  /** Exactly these providers reach the reader whole. */
  lemma {:induction false} ProviderReadIff(calls: seq<ProviderCall>)
    requires Sendable(Executed(calls, 0, true))
    ensures var ops := Executed(calls, 0, true);
            var r := ReadChunked(OpsText(ops, 0), []);
            Accepted(calls, 0, true) && r.ok && r.payload == Written(ops, 0, |ops|) && r.rest == ""
            <==> EndsAt(calls, 0, Ending(calls, 0))
  {
    hide Terminated, Executed, Accepted, ReadChunked, OpsText, Written, Sendable, EndsAt, Ending;
    CompletedIff(calls);
    ChunkedRoundTripIff(Executed(calls, 0, true));
  }

  lemma {:induction false} FrontWrites(calls: seq<ProviderCall>, n: nat)
    requires n <= |calls| && WritesUpTo(calls, n)
    ensures OnlyWrites(OpsOf(calls[..n]))
  {
    hide AllOps;
    OpsOfOne(ProviderCall([], true));
    if n > 0 {
      FrontWrites(calls, n - 1);
      TakeNext(calls, n - 1);
      OpsOfConcat(calls[..n - 1], [calls[n - 1]]);
      OpsOfOne(calls[n - 1]);
    } else {
      assert calls[..0] == [];
    }
  }

  /** A call that ends on an empty write stops the loop; without an earlier `done` the body
      it leaves is not one the reader accepts. */
  lemma {:induction false} EmptyWriteStops(calls: seq<ProviderCall>)
    requires calls != [] && calls[0].answer && calls[0].ops != [] && Sendable(calls[0].ops)
    requires calls[0].ops[|calls[0].ops| - 1] == Write("")
    requires forall i :: 0 <= i < |calls[0].ops| ==> calls[0].ops[i].Write?
    ensures Accepted(calls, 0, true) && Executed(calls, 0, true) == calls[0].ops
    ensures !ReadChunked(OpsText(calls[0].ops, 0), []).ok
  {
    hide ChunksAt, Chunks, OpText;
    var ops := calls[0].ops;
    assert Executed(calls, 1, false) == [] && ops + [] == ops;
    assert Accepted(calls, 1, false);
    OpsRead(ops, 0, "", "");
    ReadIsChunksAt(OpsText(ops, 0));
    assert OpsText(ops, 0) + "" == OpsText(ops, 0);
    NothingThere("" + Written(ops, 0, |ops|));
  }
}
