/** The chunked transfer coding (section 7.1 of RFC 9112): the writer driven by a content
    provider, the reader, and the exact condition under which one undoes the other. */
module Chunked {
  import opened Bytes
  import opened Fields
  import opened Streams
  import opened HeaderBlocks
  import opened ChunkSizes

  // ------------------------------------------------------------------- writing

  /** What a content provider does with the sink it is given. */
  datatype SinkOp = Write(data: string) | Done | DoneWithTrailer(trailer: seq<Header>)

  /** One call of the provider: its operations on the sink, and its answer. */
  datatype ProviderCall = ProviderCall(ops: seq<SinkOp>, answer: bool)

  function Chunk(data: string): string { Hex(|data|) + CRLF + (data + CRLF) }

  const LAST_CHUNK := "0\r\n"

  /** The bytes one operation puts on the wire; an empty write puts none. */
  function OpText(op: SinkOp): string {
    match op
    case Write(data) => if data == "" then "" else Chunk(data)
    case Done => LAST_CHUNK + CRLF
    case DoneWithTrailer(trailer) => LAST_CHUNK + HeaderText(trailer)
  }

  function OpsText(ops: seq<SinkOp>, n: nat): string
    requires n <= |ops|
    decreases |ops| - n
  {
    if n == |ops| then "" else OpText(ops[n]) + OpsText(ops, n + 1)
  }

  /** Whether the loop goes on after these operations: the last one decides. */
  function AvailableAfter(available: bool, ops: seq<SinkOp>): bool {
    if ops == [] then available
    else
      var last := ops[|ops| - 1];
      last.Write? && last.data != ""
  }

  /** After a write of some bytes the loop goes on, after an empty one or the end of the body it
      does not, whatever came before. */
  lemma LastOpDecides(available: bool, ops: seq<SinkOp>, data: string, trailer: seq<Header>)
    ensures AvailableAfter(available, ops + [Write(data)]) <==> data != ""
    ensures !AvailableAfter(available, ops + [Done]) && !AvailableAfter(available, ops + [DoneWithTrailer(trailer)])
    ensures AvailableAfter(available, []) == available
  {
  }

  /** The operations of the calls the loop makes before it ends. */
  function Executed(calls: seq<ProviderCall>, n: nat, available: bool): seq<SinkOp>
    requires n <= |calls|
    decreases |calls| - n
  {
    if n == |calls| || !available then []
    else
      calls[n].ops +
      if calls[n].answer then Executed(calls, n + 1, AvailableAfter(available, calls[n].ops)) else []
  }

  /** The sink the provider is handed; `offset` counts the payload it has written. */
  class ChunkedSink {
    const strm: OutStream
    var ok: bool
    var dataAvailable: bool
    var offset: nat

    constructor (strm: OutStream)
      ensures this.strm == strm && ok && dataAvailable && offset == 0
    {
      this.strm := strm;
      ok, dataAvailable, offset := true, true, 0;
    }

    method WriteOp(data: string)
      modifies this, strm
      ensures strm.mayFail || ok == old(ok)
      ensures ok ==> strm.written == old(strm.written) + OpText(Write(data))
      ensures ok ==> dataAvailable == (data != "") && offset == old(offset) + |data|
      ensures !old(ok) ==> !ok && unchanged(strm)
    {
      if ok {
        dataAvailable := |data| > 0;
        offset := offset + |data|;
        if data != "" {
          var size := FromIToHex(|data|);
          ok := WriteData(strm, size + CRLF + (data + CRLF));
        }
      }
    }

    method WriteFields(fields: seq<Header>)
      modifies this`ok, strm
      ensures strm.mayFail || ok == old(ok)
      ensures ok ==> old(ok) && strm.written == old(strm.written) + FieldLines(fields, 0)
    {
      ghost var start, out, rest := strm.written, "", FieldLines(fields, 0);
      for n := 0 to |fields|
        invariant ok ==> old(ok) && strm.written == start + out
        invariant rest == FieldLines(fields, n) && out + rest == FieldLines(fields, 0)
        invariant strm.mayFail || ok == old(ok)
      {
        var line := FieldLine(fields[n]);
        var good := WriteData(strm, line);
        if !good { ok := false; }
        rest := FieldLines(fields, n + 1);
        Append3(out, line, rest);
        Append3(start, out, line);
        out := out + line;
      }
    }

    /** The end of the body, with or without trailer fields. */
    method DoneOp(trailer: Option<seq<Header>>)
      modifies this, strm
      ensures strm.mayFail || ok == old(ok)
      ensures ok ==> strm.written ==
                     old(strm.written) + OpText(if trailer.Some? then DoneWithTrailer(trailer.value) else Done)
      ensures ok ==> !dataAvailable && offset == old(offset)
      ensures !old(ok) ==> !ok && unchanged(strm)
    {
      if !ok { return; }
      dataAvailable := false;
      var good := WriteData(strm, LAST_CHUNK);
      if !good { ok := false; }
      ghost var fields := "";
      if trailer.Some? {
        WriteFields(trailer.value);
        fields := FieldLines(trailer.value, 0);
      }
      good := WriteData(strm, CRLF);
      if !good { ok := false; }
      Append3(old(strm.written), LAST_CHUNK, fields);
      Append3(old(strm.written) + LAST_CHUNK, fields, CRLF);
      Append3(old(strm.written), LAST_CHUNK, fields + CRLF);
    }

    method Perform(op: SinkOp)
      modifies this, strm
      ensures strm.mayFail || ok == old(ok)
      ensures ok ==> old(ok) && strm.written == old(strm.written) + OpText(op)
      ensures ok ==> dataAvailable == AvailableAfter(old(dataAvailable), [op])
    {
      match op
      case Write(data) => WriteOp(data);
      case Done => DoneOp(None);
      case DoneWithTrailer(trailer) => DoneOp(Some(trailer));
    }
  }

  lemma {:induction false} OpsTextConcat(a: seq<SinkOp>, b: seq<SinkOp>, n: nat)
    requires n <= |a|
    ensures OpsText(a + b, n) == OpsText(a, n) + OpsText(b, 0)
    decreases |a| - n
  {
    hide OpText;
    if n < |a| {
      OpsTextConcat(a, b, n + 1);
      Append3(OpText(a[n]), OpsText(a, n + 1), OpsText(b, 0));
    } else {
      OpsTextShift(a, b, 0);
    }
  }

  lemma {:induction false} OpsTextShift(a: seq<SinkOp>, b: seq<SinkOp>, n: nat)
    requires n <= |b|
    ensures OpsText(a + b, |a| + n) == OpsText(b, n)
    decreases |b| - n
  {
    hide OpText;
    if n < |b| { OpsTextShift(a, b, n + 1); }
  }

  /** One call of the provider on the sink. */
  method CallProvider(sink: ChunkedSink, ops: seq<SinkOp>)
    modifies sink, sink.strm
    ensures sink.strm.mayFail || sink.ok == old(sink.ok)
    ensures sink.ok ==> old(sink.ok) && sink.strm.written == old(sink.strm.written) + OpsText(ops, 0)
    ensures sink.ok ==> sink.dataAvailable == AvailableAfter(old(sink.dataAvailable), ops)
  {
    hide OpText;
    ghost var out, rest := "", OpsText(ops, 0);
    for j := 0 to |ops|
      invariant sink.strm.mayFail || sink.ok == old(sink.ok)
      invariant sink.ok ==> old(sink.ok) && sink.strm.written == old(sink.strm.written) + out
      invariant sink.ok ==> sink.dataAvailable == AvailableAfter(old(sink.dataAvailable), ops[..j])
      invariant rest == OpsText(ops, j) && out + rest == OpsText(ops, 0)
    {
      sink.Perform(ops[j]);
      rest := OpsText(ops, j + 1);
      Append3(out, OpText(ops[j]), rest);
      Append3(old(sink.strm.written), out, OpText(ops[j]));
      out := out + OpText(ops[j]);
      assert ops[..j + 1][j] == ops[j];
    }
    assert ops[..|ops|] == ops;
  }

  function Accepted(calls: seq<ProviderCall>, n: nat, available: bool): bool
    requires n <= |calls|
    decreases |calls| - n
  {
    n == |calls| || !available
    || (calls[n].answer && Accepted(calls, n + 1, AvailableAfter(available, calls[n].ops)))
  }

  lemma {:induction false} LoopStep(done: seq<SinkOp>, calls: seq<ProviderCall>, n: nat)
    requires n < |calls|
    ensures var now, next := done + calls[n].ops, AvailableAfter(true, calls[n].ops);
            OpsText(now, 0) == OpsText(done, 0) + OpsText(calls[n].ops, 0)
            && if calls[n].answer
               then done + Executed(calls, n, true) == now + Executed(calls, n + 1, next)
                    && Accepted(calls, n, true) == Accepted(calls, n + 1, next)
               else done + Executed(calls, n, true) == now && !Accepted(calls, n, true)
  {
    hide AvailableAfter, OpsText;
    OpsTextConcat(done, calls[n].ops, 0);
    assert calls[n].ops + [] == calls[n].ops;
  }

  lemma LoopEnd(done: seq<SinkOp>, calls: seq<ProviderCall>, n: nat, available: bool)
    requires n <= |calls| && (n == |calls| || !available)
    ensures done + Executed(calls, n, available) == done && Accepted(calls, n, available)
  {
  }

  /** `written` is what a loop over these operations has put out, all of them or, when the
      program is shutting down, as far as it got. */
  ghost predicate WrittenFrom(before: string, written: string, ops: seq<SinkOp>, whole: bool) {
    if whole then written == before + OpsText(ops, 0)
    else exists m :: 0 <= m <= |ops| && written == before + OpsText(ops[..m], 0)
  }

  lemma WrittenSoFar(before: string, written: string, done: seq<SinkOp>, later: seq<SinkOp>)
    requires written == before + OpsText(done, 0)
    ensures WrittenFrom(before, written, done + later, false)
  {
    assert (done + later)[..|done|] == done;
  }

  /** The provider is called until the body ends or a call is refused. A program that shuts
      down leaves the loop before any call, and this counts as success. `calls` are all the
      calls there will be: where they run out with data still available the loop would call
      the provider again, while this method reports what has been written so far. */
  method WriteContentChunked(strm: OutStream, calls: seq<ProviderCall>, stopping: bool) returns (r: bool)
    modifies strm
    ensures r ==> WrittenFrom(old(strm.written), strm.written, Executed(calls, 0, true), !stopping)
    ensures !stopping && r ==> Accepted(calls, 0, true)
    ensures !r ==> strm.mayFail || !Accepted(calls, 0, true)
    ensures !stopping && !strm.mayFail ==>
              strm.written == old(strm.written) + OpsText(Executed(calls, 0, true), 0)
  {
    hide OpsText, Executed, Accepted, AvailableAfter;
    var sink := new ChunkedSink(strm);
    var n := 0;
    ghost var all, done := Executed(calls, 0, true), [];
    assert [] + all == all;
    assert OpsText([], 0) == "" by { NoOps(); }
    while sink.dataAvailable && n < |calls|
      invariant 0 <= n <= |calls| && sink.ok
      invariant strm.written == old(strm.written) + OpsText(done, 0)
      invariant done + Executed(calls, n, sink.dataAvailable) == all
      invariant Accepted(calls, n, sink.dataAvailable) == Accepted(calls, 0, true)
    {
      if stopping {
        if * {
          WrittenSoFar(old(strm.written), strm.written, done, Executed(calls, n, sink.dataAvailable));
          return true;
        }
      }
      LoopStep(done, calls, n);
      CallProvider(sink, calls[n].ops);
      Append3(old(strm.written), OpsText(done, 0), OpsText(calls[n].ops, 0));
      done := done + calls[n].ops;
      if !calls[n].answer { return false; }
      if !sink.ok { return false; }
      n := n + 1;
    }
    LoopEnd(done, calls, n, sink.dataAvailable);
    WrittenSoFar(old(strm.written), strm.written, done, []);
    assert done + [] == done;
    r := true;
  }

  lemma NoOps()
    ensures OpsText([], 0) == ""
  {
  }
}
