/** Streaming a multipart body: fixed items, then items whose content comes from providers,
    pulled piece by piece by the chunked writer. */
module MultipartProvider {
  import opened Bytes
  import opened Streams
  import opened PartHeaders
  import opened MultipartSerializer
  import opened Chunked
  import opened ChunkSizes
  import opened ChunkedReader
  import opened ChunkedRoundTrip
  import opened ChunkedCalls
  import MultipartParser
  import MultipartBodies
  import MultipartRoundTrip
  import MultipartMissed

  // ------------------------------------------------------------ provider items

  /** What a provider does with its own sink; `Finished` ends its item only. */
  datatype ItemOp = Piece(data: string) | Finished

  datatype ItemCall = ItemCall(ops: seq<ItemOp>, answer: bool)

  /** An item with everything its provider does, call by call, up to the call in which it
      says that it is finished. */
  datatype ProviderItem = ProviderItem(name: string, filename: string, contentType: string, calls: seq<ItemCall>)

  predicate Finishes(call: ItemCall) { Finished in call.ops }

  predicate EventuallyDone(p: ProviderItem) {
    p.calls != [] && forall c :: 0 <= c < |p.calls| ==> (Finishes(p.calls[c]) <==> c == |p.calls| - 1)
  }

  function Text(ops: seq<ItemOp>): string {
    if ops == [] then ""
    else Text(ops[..|ops| - 1]) + if ops[|ops| - 1].Piece? then ops[|ops| - 1].data else ""
  }

  /** Everything the provider writes in its first `c` calls. */
  function TextBefore(p: ProviderItem, c: nat): string
    requires c <= |p.calls|
  {
    if c == 0 then "" else TextBefore(p, c - 1) + Text(p.calls[c - 1].ops)
  }

  /** Pieces are put together in order, and nothing else counts. */
  lemma {:induction false} TextMeans(a: seq<ItemOp>, b: seq<ItemOp>, data: string)
    ensures Text(a + b) == Text(a) + Text(b) && Text([Piece(data)]) == data && Text([Finished]) == ""
    decreases |b|
  {
    assert Text([]) == "" && [Piece(data)][..0] == [] && [Finished][..0] == [];
    if b == [] {
      assert a + b == a;
    } else {
      var n := |b| - 1;
      TextMeans(a, b[..n], data);
      assert (a + b)[..|a + b| - 1] == a + b[..n] && (a + b)[|a + b| - 1] == b[n];
      Append3(Text(a), Text(b[..n]), if b[n].Piece? then b[n].data else "");
    }
  }

  /** The item with its content in one piece. */
  function AsItem(p: ProviderItem): MultipartFormData {
    MultipartFormData(p.name, TextBefore(p, |p.calls|), p.filename, p.contentType)
  }

  function AsItems(ps: seq<ProviderItem>): (r: seq<MultipartFormData>)
    ensures |r| == |ps|
    ensures forall i :: 0 <= i < |ps| ==>
              r[i] == AsItem(ps[i]) && r[i].name == ps[i].name && r[i].filename == ps[i].filename
              && r[i].contentType == ps[i].contentType
  {
    seq(|ps|, i requires 0 <= i < |ps| => AsItem(ps[i]))
  }

  // --------------------------------------------------- what the writer gets to see

  function Writes(ops: seq<ItemOp>): seq<SinkOp> {
    if ops == [] then []
    else
      Writes(ops[..|ops| - 1]) + if ops[|ops| - 1].Piece? then [Write(ops[|ops| - 1].data)] else []
  }

  function BeginOps(p: ProviderItem, c: nat, boundary: string): seq<SinkOp> {
    if c == 0 then [Write(ItemBegin(AsItem(p), boundary))] else []
  }

  function EndOps(call: ItemCall): seq<SinkOp> {
    if call.answer && Finishes(call) then [Write(CRLF)] else []
  }

  /** The `c`-th call of an item's provider as a call of the whole provider. */
  function OuterCall(p: ProviderItem, c: nat, boundary: string): ProviderCall
    requires c < |p.calls|
  {
    ProviderCall(BeginOps(p, c, boundary) + Writes(p.calls[c].ops) + EndOps(p.calls[c]), p.calls[c].answer)
  }

  function ItemCalls(p: ProviderItem, c: nat, boundary: string): seq<ProviderCall>
    requires c <= |p.calls|
    decreases |p.calls| - c
  {
    if c == |p.calls| then [] else [OuterCall(p, c, boundary)] + ItemCalls(p, c + 1, boundary)
  }

  function FixedCall(items: seq<MultipartFormData>, boundary: string): ProviderCall {
    ProviderCall([Write(Serialized(items, boundary, false))], true)
  }

  function LastCall(boundary: string): ProviderCall { ProviderCall([Write(Finish(boundary)), Done], true) }

  /** The calls still to come when item `i` has had `c` of its own. */
  function Ahead(ps: seq<ProviderItem>, i: nat, c: nat, boundary: string): seq<ProviderCall>
    requires i <= |ps| && c <= if i < |ps| then |ps[i].calls| else 0
    decreases |ps| - i
  {
    if i == |ps| then [LastCall(boundary)]
    else ItemCalls(ps[i], c, boundary) + Ahead(ps, i + 1, 0, boundary)
  }

  function AllCalls(items: seq<MultipartFormData>, ps: seq<ProviderItem>, boundary: string): seq<ProviderCall> {
    (if items == [] then [] else [FixedCall(items, boundary)]) + Ahead(ps, 0, 0, boundary)
  }

  // ---------------------------------------------------------------- the provider

  function Payload(ops: seq<SinkOp>): string { Written(ops, 0, |ops|) }

  /** The sink has been told `ops` since its stream stood at `base`. */
  ghost predicate Told(sink: ChunkedSink, base: string, ops: seq<SinkOp>)
    reads sink, sink.strm
  {
    (sink.ok ==> sink.strm.written == base + OpsText(ops, 0) && sink.offset == |Payload(ops)|
                 && sink.dataAvailable == AvailableAfter(true, ops))
    && (sink.strm.mayFail || sink.ok)
  }

  lemma WrittenNext(ops: seq<SinkOp>, n: nat, k: nat)
    requires n < k <= |ops|
    ensures Written(ops, n, k) == (if ops[n].Write? then ops[n].data else "") + Written(ops, n + 1, k)
  {
  }

  lemma {:induction false} PayloadShift(a: seq<SinkOp>, b: seq<SinkOp>, n: nat)
    requires n <= |b|
    ensures Written(a + b, |a| + n, |a| + |b|) == Written(b, n, |b|)
    decreases |b| - n
  {
    if n < |b| {
      hide Written;
      PayloadShift(a, b, n + 1);
      WrittenNext(b, n, |b|);
      WrittenNext(a + b, |a| + n, |a| + |b|);
    }
  }

  lemma {:induction false} PayloadPrefix(a: seq<SinkOp>, b: seq<SinkOp>, n: nat)
    requires n <= |a|
    ensures Written(a + b, n, |a|) == Written(a, n, |a|)
    decreases |a| - n
  {
    if n < |a| {
      hide Written;
      PayloadPrefix(a, b, n + 1);
      WrittenNext(a, n, |a|);
      WrittenNext(a + b, n, |a|);
    }
  }

  lemma {:induction false} PayloadConcat(a: seq<SinkOp>, b: seq<SinkOp>)
    ensures Payload(a + b) == Payload(a) + Payload(b)
  {
    hide Written;
    WrittenSplit(a + b, 0, |a|);
    PayloadPrefix(a, b, 0);
    PayloadShift(a, b, 0);
  }

  lemma PayloadOne(op: SinkOp)
    ensures Payload([op]) == (if op.Write? then op.data else "") && OpsText([op], 0) == OpText(op)
  {
    assert Written([op], 1, 1) == "" && OpsText([op], 1) == "";
  }

  /** One operation on the sink. */
  method Tell(sink: ChunkedSink, op: SinkOp, ghost base: string, ghost ops: seq<SinkOp>)
    requires Told(sink, base, ops) && !op.DoneWithTrailer?
    modifies sink, sink.strm
    ensures Told(sink, base, ops + [op])
    ensures sink.ok ==> old(sink.ok)
  {
    hide OpText, OpsText, Written;
    match op {
      case Write(data) => sink.WriteOp(data);
      case Done => sink.DoneOp(None);
    }
    PayloadOne(op);
    PayloadConcat(ops, [op]);
    OpsTextConcat(ops, [op], 0);
    Append3(base, OpsText(ops, 0), OpText(op));
  }

  lemma ToldOffset(sink: ChunkedSink, base: string, ops: seq<SinkOp>)
    requires Told(sink, base, ops)
    ensures sink.ok ==> sink.offset == |Payload(ops)| && sink.dataAvailable == AvailableAfter(true, ops)
                        && sink.strm.written == base + OpsText(ops, 0)
    ensures sink.strm.mayFail || sink.ok
  {
  }

  lemma {:induction false} FixedText(items: seq<MultipartFormData>, boundary: string)
    requires items != []
    ensures Serialized(items, boundary, false) != ""
  {
    assert ItemBegin(items[0], boundary) != "";
  }

  lemma AheadEnd(ps: seq<ProviderItem>, boundary: string)
    ensures Ahead(ps, |ps|, 0, boundary) == [LastCall(boundary)]
  {
  }

  lemma {:induction false} BeginText(p: ProviderItem, boundary: string)
    ensures ItemBegin(MultipartFormData(p.name, "", p.filename, p.contentType), boundary)
            == ItemBegin(AsItem(p), boundary) != ""
  {
  }

  lemma {:induction false} ToldCrlf(told: seq<SinkOp>)
    ensures |Payload(told + [Write(CRLF)])| > 0
  {
    hide Written;
    PayloadConcat(told, [Write(CRLF)]);
    PayloadOne(Write(CRLF));
  }

  lemma OuterOps(ops: seq<SinkOp>, p: ProviderItem, c: nat, boundary: string)
    requires c < |p.calls|
    ensures var call := p.calls[c];
            ops + OuterCall(p, c, boundary).ops
            == ops + BeginOps(p, c, boundary) + Writes(call.ops) + EndOps(call)
  {
  }

  lemma {:induction false} PayloadWrites(ops: seq<ItemOp>)
    ensures Payload(Writes(ops)) == Text(ops)
  {
    if ops != [] {
      var op := ops[|ops| - 1];
      PayloadWrites(ops[..|ops| - 1]);
      if op.Piece? {
        PayloadConcat(Writes(ops[..|ops| - 1]), [Write(op.data)]);
        PayloadOne(Write(op.data));
      } else {
        assert Writes(ops[..|ops| - 1]) + [] == Writes(ops[..|ops| - 1]);
      }
    }
  }

  lemma {:induction false} TellWrites(told: seq<SinkOp>, ops: seq<ItemOp>)
    ensures Payload(told + Writes(ops)) == Payload(told) + Text(ops)
  {
    hide Written;
    PayloadConcat(told, Writes(ops));
    PayloadWrites(ops);
  }

  lemma Begun(p: ProviderItem)
    requires EventuallyDone(p)
    ensures p.calls != []
  {
  }

  lemma {:induction false} AheadStep(ps: seq<ProviderItem>, i: nat, c: nat, boundary: string)
    requires i < |ps| && c < |ps[i].calls| && EventuallyDone(ps[i])
    ensures Finishes(ps[i].calls[c]) <==> c == |ps[i].calls| - 1
    ensures var a := Ahead(ps, i, c, boundary);
            a != [] && a[0] == OuterCall(ps[i], c, boundary)
            && a[1..] == if Finishes(ps[i].calls[c]) then Ahead(ps, i + 1, 0, boundary)
                         else Ahead(ps, i, c + 1, boundary)
  {
    hide OuterCall, Finishes;
    var later := Ahead(ps, i + 1, 0, boundary);
    Append3([OuterCall(ps[i], c, boundary)], ItemCalls(ps[i], c + 1, boundary), later);
    if c + 1 == |ps[i].calls| { assert [] + later == later; }
  }

  lemma WritesNext(calls: seq<ItemOp>, j: nat, ops: seq<SinkOp>)
    requires j < |calls|
    ensures ops + Writes(calls[..j + 1]) ==
            ops + Writes(calls[..j]) + if calls[j].Piece? then [Write(calls[j].data)] else []
    ensures Finished in calls[..j + 1] <==> Finished in calls[..j] || calls[j] == Finished
  {
    TakeNext(calls, j);
    assert calls[..j + 1][..j] == calls[..j];
  }

  class ContentProvider {
    const items: seq<MultipartFormData>
    const providerItems: seq<ProviderItem>
    const boundary: string
    var curItem: nat
    var curStart: nat
    /** How often the current item's provider has been called. */
    var curCall: nat

    ghost predicate Valid()
      reads this
    {
      curItem <= |providerItems| && (forall p :: p in providerItems ==> EventuallyDone(p))
      && (if curItem < |providerItems| then curCall < |providerItems[curItem].calls| else curCall == 0)
      && (curStart == 0 <==> curCall == 0)
    }

    /** The outer offset at which the next call finds this provider. */
    ghost predicate At(offset: nat)
      requires Valid()
      reads this
    {
      (curStart > 0 ==> offset == curStart + |TextBefore(providerItems[curItem], curCall)|)
      && (offset == 0 ==> curItem == 0 && curCall == 0)
    }

    ghost function Coming(offset: nat): seq<ProviderCall>
      requires Valid()
      reads this
    {
      (if offset == 0 && items != [] then [FixedCall(items, boundary)] else [])
      + Ahead(providerItems, curItem, curCall, boundary)
    }

    constructor (items: seq<MultipartFormData>, providerItems: seq<ProviderItem>, boundary: string)
      requires forall p :: p in providerItems ==> EventuallyDone(p)
      ensures Valid() && At(0) && Coming(0) == AllCalls(items, providerItems, boundary)
      ensures this.items == items && this.providerItems == providerItems && this.boundary == boundary
    {
      this.items, this.providerItems, this.boundary := items, providerItems, boundary;
      curItem, curStart, curCall := 0, 0, 0;
      if providerItems != [] { assert EventuallyDone(providerItems[0]); }
    }

    /** The current item's provider runs. It is called with the number of bytes it has
        written itself. */
    method CallItemProvider(itemOffset: nat, sink: ChunkedSink, ghost base: string, ghost ops: seq<SinkOp>)
      returns (answer: bool, hasData: bool)
      requires curItem < |providerItems| && curCall < |providerItems[curItem].calls|
      requires itemOffset == |TextBefore(providerItems[curItem], curCall)|
      requires Told(sink, base, ops)
      modifies sink, sink.strm
      ensures var call := providerItems[curItem].calls[curCall];
              answer == call.answer && hasData == !Finishes(call) && Told(sink, base, ops + Writes(call.ops))
      ensures sink.ok ==> old(sink.ok)
    {
      hide Told, Written, OpsText;
      var call := providerItems[curItem].calls[curCall];
      hasData := true;
      ghost var told := ops;
      assert ops + Writes(call.ops[..0]) == ops;
      for j := 0 to |call.ops|
        invariant told == ops + Writes(call.ops[..j]) && Told(sink, base, told)
        invariant hasData == (Finished !in call.ops[..j])
        invariant sink.ok ==> old(sink.ok)
      {
        WritesNext(call.ops, j, ops);
        match call.ops[j] {
          case Piece(data) =>
            Tell(sink, Write(data), base, told);
            told := told + [Write(data)];
          case Finished =>
            hasData := false;
        }
      }
      assert call.ops[..|call.ops|] == call.ops;
      answer := call.answer;
    }

    /** The item's opening, before its provider is called for the first time. */
    method Begin(offset: nat, sink: ChunkedSink, ghost base: string, ghost ops: seq<SinkOp>)
      returns (at: nat, ghost told: seq<SinkOp>)
      requires Valid() && At(offset) && Told(sink, base, ops) && sink.ok && sink.offset == offset
      requires curItem < |providerItems|
      modifies this`curStart, sink, sink.strm
      ensures told == ops + BeginOps(providerItems[curItem], curCall, boundary) && Told(sink, base, told)
      ensures curStart > 0 && at == curStart + |TextBefore(providerItems[curItem], curCall)|
      ensures |Payload(told)| == at
    {
      hide ItemBegin, OpsText, Written;
      var item := providerItems[curItem];
      at, told := offset, ops;
      if curStart == 0 {
        var begin := SerializeItemBegin(MultipartFormData(item.name, "", item.filename, item.contentType), boundary);
        BeginText(item, boundary);
        at := at + |begin|;
        curStart := at;
        Tell(sink, Write(begin), base, told);
        told := told + [Write(begin)];
        PayloadConcat(ops, [Write(begin)]);
        PayloadOne(Write(begin));
      }
    }

    method CallItem(offset: nat, sink: ChunkedSink, ghost base: string, ghost ops: seq<SinkOp>) returns (answer: bool)
      requires Valid() && At(offset) && Told(sink, base, ops) && sink.ok && sink.offset == offset
      requires curItem < |providerItems|
      modifies this`curItem, this`curStart, this`curCall, sink, sink.strm
      ensures var call := OuterCall(providerItems[old(curItem)], old(curCall), boundary);
              answer == call.answer && Told(sink, base, ops + call.ops)
      ensures answer ==> Valid()
      ensures answer && sink.ok ==> At(sink.offset) && sink.offset > 0
      ensures answer ==> Ahead(providerItems, curItem, curCall, boundary)
                         == old(Ahead(providerItems, curItem, curCall, boundary))[1..]
    {
      hide Told, OpsText, Payload, Ahead, Valid, At;
      ghost var c := curCall;
      var item := providerItems[curItem];
      var at;
      ghost var told;
      Current();
      at, told := Begin(offset, sink, base, ops);
      var hasData;
      answer, hasData := CallItemProvider(at - curStart, sink, base, told);
      TellWrites(told, item.calls[c].ops);
      told := told + Writes(item.calls[c].ops);
      OuterOps(ops, item, c, boundary);
      assert told + [] == told;
      if answer { Advance(hasData, sink, base, told); }
    }

    lemma Current()
      requires Valid() && curItem < |providerItems|
      ensures curCall < |providerItems[curItem].calls| && forall p :: p in providerItems ==> EventuallyDone(p)
    {
    }

    /** After an answered provider call: the item goes on, or is closed. */
    method Advance(hasData: bool, sink: ChunkedSink, ghost base: string, ghost told: seq<SinkOp>)
      requires curItem < |providerItems| && curCall < |providerItems[curItem].calls| && curStart > 0
      requires forall p :: p in providerItems ==> EventuallyDone(p)
      requires hasData == !Finishes(providerItems[curItem].calls[curCall])
      requires Told(sink, base, told)
      requires |Payload(told)| == curStart + |TextBefore(providerItems[curItem], curCall + 1)|
      modifies this`curItem, this`curStart, this`curCall, sink, sink.strm
      ensures Valid() && Told(sink, base, told + if hasData then [] else [Write(CRLF)])
      ensures sink.ok ==> At(sink.offset) && sink.offset > 0
      ensures Ahead(providerItems, curItem, curCall, boundary)
              == old(Ahead(providerItems, curItem, curCall, boundary))[1..]
    {
      hide Told, OpsText, Payload, Ahead, EventuallyDone, Finishes, TextBefore;
      assert EventuallyDone(providerItems[curItem]) by { assert providerItems[curItem] in providerItems; }
      AheadStep(providerItems, curItem, curCall, boundary);
      curCall := curCall + 1;
      if hasData {
        assert told + [] == told;
        ToldOffset(sink, base, told);
      } else {
        Tell(sink, Write(CRLF), base, told);
        ToldCrlf(told);
        ToldOffset(sink, base, told + [Write(CRLF)]);
        curItem, curStart, curCall := curItem + 1, 0, 0;
        if curItem < |providerItems| {
          assert providerItems[curItem] in providerItems;
          Begun(providerItems[curItem]);
        }
      }
    }

    /** One call: the fixed items, or a step of the current item, or the end. */
    method Call(offset: nat, sink: ChunkedSink, ghost base: string, ghost ops: seq<SinkOp>) returns (answer: bool)
      requires Valid() && At(offset) && Told(sink, base, ops) && sink.ok && sink.offset == offset
      modifies this`curItem, this`curStart, this`curCall, sink, sink.strm
      ensures old(Coming(offset)) != []
      ensures var call := old(Coming(offset))[0];
              answer == call.answer && Told(sink, base, ops + call.ops)
              && (sink.ok && answer && call != LastCall(boundary) ==>
                    Valid() && At(sink.offset) && Coming(sink.offset) == old(Coming(offset))[1..])
    {
      hide Told, OpsText, Written, Ahead;
      ghost var ahead := Ahead(providerItems, curItem, curCall, boundary);
      assert [] + ahead == ahead;
      if offset == 0 && items != [] {
        var text := SerializeMultipartFormdata(items, boundary, false);
        Tell(sink, Write(text), base, ops);
        FixedText(items, boundary);
        PayloadConcat(ops, [Write(text)]);
        PayloadOne(Write(text));
        ToldOffset(sink, base, ops + [Write(text)]);
        answer := true;
      } else if curItem < |providerItems| {
        AheadStep(providerItems, curItem, curCall, boundary);
        answer := CallItem(offset, sink, base, ops);
        if answer {
          ghost var later := Ahead(providerItems, curItem, curCall, boundary);
          assert [] + later == later;
        }
      } else {
        AheadEnd(providerItems, boundary);
        var end := DASH + boundary + DASH + CRLF;
        Tell(sink, Write(end), base, ops);
        Tell(sink, Done, base, ops + [Write(end)]);
        Append3(ops, [Write(end)], [Done]);
        assert [Write(end)] + [Done] == LastCall(boundary).ops;
        answer := true;
      }
    }
  }

  lemma AheadNotEmpty(ps: seq<ProviderItem>, i: nat, c: nat, boundary: string)
    requires i <= |ps| && c <= if i < |ps| then |ps[i].calls| else 0
    ensures Ahead(ps, i, c, boundary) != []
    decreases |ps| - i
  {
    if i < |ps| { AheadNotEmpty(ps, i + 1, 0, boundary); }
  }

  lemma {:induction false} AvailableNext(ops: seq<SinkOp>, more: seq<SinkOp>)
    requires AvailableAfter(true, ops)
    ensures AvailableAfter(true, ops + more) == AvailableAfter(true, more)
  {
    if more == [] { assert ops + more == ops; }
  }

  /** The chunked writer's loop with this provider, in a client, where nothing shuts down. */
  method WriteMultipartChunked(strm: OutStream, provider: ContentProvider) returns (r: bool)
    requires provider.Valid() && provider.At(0)
    modifies strm, provider
    ensures var calls := old(provider.Coming(0));
            (r ==> Accepted(calls, 0, true)) && (!r ==> strm.mayFail || !Accepted(calls, 0, true))
            && (r || !strm.mayFail ==> strm.written == old(strm.written) + OpsText(Executed(calls, 0, true), 0))
  {
    hide OpsText, Written, AvailableAfter, Executed, Accepted, Ahead, Told;
    var sink := new ChunkedSink(strm);
    ghost var base, ops, n := strm.written, [], 0;
    ghost var calls := provider.Coming(0);
    assert calls[0..] == calls && [] + Executed(calls, 0, true) == Executed(calls, 0, true);
    StartTold(sink);
    while sink.dataAvailable
      invariant sink.ok && Told(sink, base, ops) && n <= |calls|
      invariant sink.dataAvailable ==>
                  provider.Valid() && provider.At(sink.offset) && provider.Coming(sink.offset) == calls[n..]
      invariant ops + Executed(calls, n, sink.dataAvailable) == Executed(calls, 0, true)
      invariant Accepted(calls, n, sink.dataAvailable) == Accepted(calls, 0, true)
      decreases |calls| - n
    {
      AheadNotEmpty(provider.providerItems, provider.curItem, provider.curCall, provider.boundary);
      assert calls[n..][0] == calls[n] && calls[n..][1..] == calls[n + 1..];
      ToldOffset(sink, base, ops);
      LoopStep(ops, calls, n);
      AvailableNext(ops, calls[n].ops);
      var answer := provider.Call(sink.offset, sink, base, ops);
      ops := ops + calls[n].ops;
      ToldOffset(sink, base, ops);
      if !answer { return false; }
      if !sink.ok { return false; }
      assert calls[n] == LastCall(provider.boundary) ==> !sink.dataAvailable by {
        LastStops(ops[..|ops| - |calls[n].ops|], provider.boundary);
      }
      n := n + 1;
    }
    LoopEnd(ops, calls, n, false);
    ToldOffset(sink, base, ops);
    r := true;
  }

  lemma LastStops(ops: seq<SinkOp>, boundary: string)
    ensures !AvailableAfter(true, ops + LastCall(boundary).ops)
  {
  }

  lemma StartTold(sink: ChunkedSink)
    requires sink.ok && sink.dataAvailable && sink.offset == 0
    ensures Told(sink, sink.strm.written, [])
  {
    assert Payload([]) == "" && sink.strm.written + "" == sink.strm.written;
  }

  // ------------------------------------------------------- streaming equals batch

  /** A provider call the writer's loop survives: it is answered, and unless it finishes the
      item it does not end on an empty write. */
  predicate Cooperates(call: ItemCall) {
    call.answer && (Finishes(call) || AvailableAfter(true, Writes(call.ops)))
  }

  predicate ItemCooperates(p: ProviderItem) { forall c :: 0 <= c < |p.calls| ==> Cooperates(p.calls[c]) }

  predicate AllCooperate(ps: seq<ProviderItem>, i: nat)
    requires i <= |ps|
  {
    forall j :: i <= j < |ps| ==> ItemCooperates(ps[j])
  }

  function TextFrom(p: ProviderItem, c: nat): string
    requires c <= |p.calls|
    decreases |p.calls| - c
  {
    if c == |p.calls| then "" else Text(p.calls[c].ops) + TextFrom(p, c + 1)
  }

  lemma {:induction false} TextSplit(p: ProviderItem, c: nat)
    requires c <= |p.calls|
    ensures TextBefore(p, c) + TextFrom(p, c) == TextBefore(p, |p.calls|)
    decreases |p.calls| - c
  {
    if c < |p.calls| {
      TextSplit(p, c + 1);
      Append3(TextBefore(p, c), Text(p.calls[c].ops), TextFrom(p, c + 1));
    }
  }

  lemma {:induction false} OuterPayload(p: ProviderItem, c: nat, boundary: string)
    requires c < |p.calls| && EventuallyDone(p) && p.calls[c].answer
    ensures Payload(OuterCall(p, c, boundary).ops) ==
            (if c == 0 then ItemBegin(AsItem(p), boundary) else "") + Text(p.calls[c].ops)
            + (if c == |p.calls| - 1 then CRLF else "")
  {
    hide Written, ItemBegin, Writes;
    var call := p.calls[c];
    var a, b, d := BeginOps(p, c, boundary), Writes(call.ops), EndOps(call);
    PayloadConcat(a + b, d);
    TellWrites(a, call.ops);
    assert Payload([]) == "" by { EmptyPayload(); }
    PayloadOne(Write(CRLF));
    PayloadOne(Write(ItemBegin(AsItem(p), boundary)));
  }

  lemma EmptyPayload()
    ensures Payload([]) == ""
  {
  }

  lemma {:induction false} ItemPayload(p: ProviderItem, c: nat, boundary: string)
    requires c < |p.calls| && EventuallyDone(p) && forall k :: 0 <= k < |p.calls| ==> p.calls[k].answer
    ensures Payload(OpsOf(ItemCalls(p, c, boundary))) ==
            (if c == 0 then ItemBegin(AsItem(p), boundary) else "") + (TextFrom(p, c) + CRLF)
    decreases |p.calls| - c
  {
    hide Payload, OuterCall, ItemBegin, Text, OpsOf;
    var begin := if c == 0 then ItemBegin(AsItem(p), boundary) else "";
    var text := Text(p.calls[c].ops);
    OuterPayload(p, c, boundary);
    var later := ItemCalls(p, c + 1, boundary);
    OpsOfConcat([OuterCall(p, c, boundary)], later);
    OpsOfOne(OuterCall(p, c, boundary));
    PayloadConcat(OuterCall(p, c, boundary).ops, OpsOf(later));
    if c + 1 < |p.calls| {
      ItemPayload(p, c + 1, boundary);
      Regroup4(begin, text, TextFrom(p, c + 1), CRLF);
    } else {
      EmptyPayload();
      assert text + "" == text;
      Regroup4(begin, text, "", CRLF);
    }
  }

  lemma Regroup4(a: string, b: string, c: string, d: string)
    ensures a + b + "" + ("" + (c + d)) == a + ((b + c) + d)
    ensures a + b + d + "" == a + (b + d)
  {
  }

  lemma {:induction false} WholeItem(p: ProviderItem, boundary: string)
    requires EventuallyDone(p) && forall k :: 0 <= k < |p.calls| ==> p.calls[k].answer
    ensures Payload(OpsOf(ItemCalls(p, 0, boundary))) == ItemBegin(AsItem(p), boundary) + (AsItem(p).content + CRLF)
  {
    hide Written, ItemBegin, OpsOf, ItemCalls;
    ItemPayload(p, 0, boundary);
    TextSplit(p, 0);
    assert "" + TextFrom(p, 0) == TextFrom(p, 0);
  }

  lemma {:induction false} AheadPayload(ps: seq<ProviderItem>, i: nat, boundary: string)
    requires i <= |ps| && AllCooperate(ps, i) && forall p :: p in ps ==> EventuallyDone(p)
    ensures Payload(OpsOf(Ahead(ps, i, 0, boundary))) == SerializedFrom(AsItems(ps), i, boundary, true)
    decreases |ps| - i
  {
    hide Payload, ItemBegin, EventuallyDone, OpsOf, ItemCalls, AsItem;
    if i == |ps| {
      FinishPayload(boundary);
    } else {
      var p := ps[i];
      assert EventuallyDone(p) by { assert p in ps; }
      var later := Ahead(ps, i + 1, 0, boundary);
      OpsOfConcat(ItemCalls(p, 0, boundary), later);
      PayloadConcat(OpsOf(ItemCalls(p, 0, boundary)), OpsOf(later));
      WholeItem(p, boundary);
      AheadPayload(ps, i + 1, boundary);
    }
  }

  lemma {:induction false} FinishPayload(boundary: string)
    ensures OpsOf([LastCall(boundary)]) == [Write(Finish(boundary)), Done]
    ensures Payload(OpsOf([LastCall(boundary)])) == Finish(boundary)
  {
    OpsOfOne(LastCall(boundary));
    PayloadConcat([Write(Finish(boundary))], [Done]);
    PayloadOne(Write(Finish(boundary)));
    PayloadOne(Done);
    assert [Write(Finish(boundary))] + [Done] == [Write(Finish(boundary)), Done];
  }

  lemma {:induction false} SerializedShift(a: seq<MultipartFormData>, b: seq<MultipartFormData>, n: nat,
                                           boundary: string)
    requires n <= |b|
    ensures SerializedFrom(a + b, |a| + n, boundary, true) == SerializedFrom(b, n, boundary, true)
    decreases |b| - n
  {
    hide ItemBegin;
    if n < |b| { SerializedShift(a, b, n + 1, boundary); }
  }

  lemma {:induction false} SerializedConcat(a: seq<MultipartFormData>, b: seq<MultipartFormData>, n: nat,
                                            boundary: string)
    requires n <= |a|
    ensures SerializedFrom(a + b, n, boundary, true)
            == SerializedFrom(a, n, boundary, false) + Serialized(b, boundary, true)
    decreases |a| - n
  {
    hide ItemBegin;
    if n < |a| {
      SerializedConcat(a, b, n + 1, boundary);
      Append3(ItemBegin(a[n], boundary) + (a[n].content + CRLF), SerializedFrom(a, n + 1, boundary, false),
              Serialized(b, boundary, true));
    } else {
      SerializedShift(a, b, 0, boundary);
    }
  }

  lemma {:induction false} AllPayload(items: seq<MultipartFormData>, ps: seq<ProviderItem>, boundary: string)
    requires AllCooperate(ps, 0) && forall p :: p in ps ==> EventuallyDone(p)
    ensures Payload(OpsOf(AllCalls(items, ps, boundary))) == Serialized(items + AsItems(ps), boundary, true)
  {
    hide Payload, OpsOf, SerializedFrom, EventuallyDone, Ahead;
    var later := Ahead(ps, 0, 0, boundary);
    AheadPayload(ps, 0, boundary);
    if items == [] {
      assert [] + later == later && items + AsItems(ps) == AsItems(ps);
    } else {
      var fixedCall := FixedCall(items, boundary);
      OpsOfConcat([fixedCall], later);
      OpsOfOne(fixedCall);
      PayloadConcat(fixedCall.ops, OpsOf(later));
      PayloadOne(fixedCall.ops[0]);
      SerializedConcat(items, AsItems(ps), 0, boundary);
    }
  }

  lemma {:induction false} WritesWrite(ops: seq<ItemOp>)
    ensures OnlyWrites(Writes(ops))
  {
    if ops != [] { WritesWrite(ops[..|ops| - 1]); }
  }

  lemma {:induction false} OuterGood(p: ProviderItem, c: nat, boundary: string)
    requires c < |p.calls|
    ensures Good(OuterCall(p, c, boundary)) <==> Cooperates(p.calls[c])
    ensures OnlyWrites(OuterCall(p, c, boundary).ops)
  {
    hide Writes, Finishes, ItemBegin;
    var call := p.calls[c];
    WritesWrite(call.ops);
    BeginText(p, boundary);
    var b := BeginOps(p, c, boundary);
    if Writes(call.ops) == [] { assert b + Writes(call.ops) == b; }
    if EndOps(call) == [] { assert b + Writes(call.ops) + [] == b + Writes(call.ops); }
  }

  lemma {:induction false} ItemCallAt(p: ProviderItem, c: nat, k: nat, boundary: string)
    requires c + k < |p.calls|
    ensures |ItemCalls(p, c, boundary)| == |p.calls| - c
    ensures ItemCalls(p, c, boundary)[k] == OuterCall(p, c + k, boundary)
    decreases |p.calls| - c
  {
    hide OuterCall;
    if c + 1 < |p.calls| {
      ItemCallAt(p, c + 1, if k > 0 then k - 1 else 0, boundary);
    } else {
      assert ItemCalls(p, c + 1, boundary) == [];
    }
  }

  lemma {:induction false} UpToConcat(a: seq<ProviderCall>, b: seq<ProviderCall>, n: nat)
    requires n <= |b|
    ensures GoodUpTo(a + b, |a| + n) <==> GoodUpTo(a, |a|) && GoodUpTo(b, n)
    ensures WritesUpTo(a + b, |a| + n) <==> WritesUpTo(a, |a|) && WritesUpTo(b, n)
  {
    hide Good, OnlyWrites;
    var c := a + b;
    assert forall k :: 0 <= k < |a| ==> c[k] == a[k];
    assert forall k :: 0 <= k < n ==> b[k] == c[|a| + k];
    assert forall k :: |a| <= k < |a| + n ==> c[k] == b[k - |a|];
  }

  lemma {:induction false} ItemGood(p: ProviderItem, boundary: string)
    requires EventuallyDone(p)
    ensures var mine := ItemCalls(p, 0, boundary);
            (GoodUpTo(mine, |mine|) <==> ItemCooperates(p)) && WritesUpTo(mine, |mine|)
  {
    hide Good, OnlyWrites, Cooperates, OuterCall, ItemCalls, EventuallyDone;
    var mine := ItemCalls(p, 0, boundary);
    Begun(p);
    ItemCallAt(p, 0, 0, boundary);
    forall k | 0 <= k < |p.calls|
      ensures OnlyWrites(mine[k].ops) && (Good(mine[k]) <==> Cooperates(p.calls[k]))
    {
      ItemCallAt(p, 0, k, boundary);
      OuterGood(p, k, boundary);
    }
  }

  lemma {:induction false} AheadGood(ps: seq<ProviderItem>, i: nat, boundary: string)
    requires i <= |ps| && forall p :: p in ps ==> EventuallyDone(p)
    ensures var calls := Ahead(ps, i, 0, boundary);
            calls != [] && calls[|calls| - 1] == LastCall(boundary)
            && WritesUpTo(calls, |calls| - 1) && (GoodUpTo(calls, |calls| - 1) <==> AllCooperate(ps, i))
    decreases |ps| - i
  {
    hide Good, OnlyWrites, ItemCooperates, EventuallyDone, LastCall, ItemCalls;
    if i < |ps| {
      var mine, later := ItemCalls(ps[i], 0, boundary), Ahead(ps, i + 1, 0, boundary);
      AheadGood(ps, i + 1, boundary);
      assert EventuallyDone(ps[i]) by { assert ps[i] in ps; }
      ItemGood(ps[i], boundary);
      UpToConcat(mine, later, |later| - 1);
    }
  }

  lemma {:induction false} FixedGood(items: seq<MultipartFormData>, boundary: string)
    requires items != []
    ensures GoodUpTo([FixedCall(items, boundary)], 1) && WritesUpTo([FixedCall(items, boundary)], 1)
  {
    hide Serialized;
    FixedText(items, boundary);
  }

  lemma {:induction false} AllGood(items: seq<MultipartFormData>, ps: seq<ProviderItem>, boundary: string)
    requires forall p :: p in ps ==> EventuallyDone(p)
    ensures var calls := AllCalls(items, ps, boundary);
            calls != [] && calls[|calls| - 1] == LastCall(boundary)
            && WritesUpTo(calls, |calls| - 1) && (GoodUpTo(calls, |calls| - 1) <==> AllCooperate(ps, 0))
  {
    hide ItemCooperates, EventuallyDone, LastCall, Ahead, AllCooperate, GoodUpTo, WritesUpTo, FixedCall;
    var later := Ahead(ps, 0, 0, boundary);
    AheadGood(ps, 0, boundary);
    if items == [] {
      assert [] + later == later;
    } else {
      FixedGood(items, boundary);
      UpToConcat([FixedCall(items, boundary)], later, |later| - 1);
    }
  }

  /** The upload runs to its end exactly when every provider cooperates; then its payload is
      the body that would have been written in one piece. */
  lemma {:induction false} StreamingEqualsBatch(items: seq<MultipartFormData>, ps: seq<ProviderItem>, boundary: string)
    requires forall p :: p in ps ==> EventuallyDone(p)
    ensures var calls := AllCalls(items, ps, boundary);
            var ops := Executed(calls, 0, true);
            (Accepted(calls, 0, true) && Terminated(ops) <==> AllCooperate(ps, 0))
            && (AllCooperate(ps, 0) ==> Payload(ops) == Serialized(items + AsItems(ps), boundary, true))
  {
    hide AllCooperate, EventuallyDone, AvailableAfter, Payload, AllOps, AllCalls, Serialized, Executed, Accepted;
    hide Terminated;
    var calls := AllCalls(items, ps, boundary);
    AllGood(items, ps, boundary);
    LastTerminates(boundary);
    EndingIs(calls, 0, |calls| - 1);
    CompletedIff(calls);
    assert EndsAt(calls, 0, |calls| - 1) <==> GoodUpTo(calls, |calls| - 1);
    if AllCooperate(ps, 0) {
      assert calls[..|calls|] == calls;
      AllPayload(items, ps, boundary);
    }
  }

  lemma LastTerminates(boundary: string)
    ensures Terminated(LastCall(boundary).ops) && !OnlyWrites(LastCall(boundary).ops)
  {
    var ops := LastCall(boundary).ops;
    assert ops[0].Write? && ops[1] == Done;
    assert FirstDone(ops, 0) == 1;
  }

  /** What a server reads from such an upload: the body in one piece. */
  lemma {:induction false} StreamedUpload(items: seq<MultipartFormData>, ps: seq<ProviderItem>, boundary: string,
                                          rest: string)
    requires (forall p :: p in ps ==> EventuallyDone(p)) && AllCooperate(ps, 0)
    requires |Serialized(items + AsItems(ps), boundary, true)| < ULONG_MAX
    ensures var ops := Executed(AllCalls(items, ps, boundary), 0, true);
            var r := ReadChunked(OpsText(ops, 0) + rest, []);
            r.ok && r.payload == Serialized(items + AsItems(ps), boundary, true) && r.rest == rest
  {
    hide AllCooperate, EventuallyDone, Written, AllCalls, Serialized, Executed, Accepted, ReadChunked, OpsText;
    hide Terminated;
    var ops := Executed(AllCalls(items, ps, boundary), 0, true);
    StreamingEqualsBatch(items, ps, boundary);
    NoTrailers(items, ps, boundary);
    SmallWrites(ops, 0);
    ChunkedRoundTrip.ChunkedRoundTrip(ops, rest);
  }

  lemma {:induction false} SmallWrites(ops: seq<SinkOp>, n: nat)
    requires n <= |ops|
    ensures forall k :: n <= k < |ops| && ops[k].Write? ==> |ops[k].data| <= |Written(ops, n, |ops|)|
    decreases |ops| - n
  {
    if n < |ops| { SmallWrites(ops, n + 1); }
  }

  lemma {:induction false} NoTrailers(items: seq<MultipartFormData>, ps: seq<ProviderItem>, boundary: string)
    requires (forall p :: p in ps ==> EventuallyDone(p)) && AllCooperate(ps, 0)
    ensures var ops := Executed(AllCalls(items, ps, boundary), 0, true);
            forall k :: 0 <= k < |ops| ==> !ops[k].DoneWithTrailer?
  {
    hide AllCooperate, EventuallyDone, AvailableAfter, AllOps, AllCalls, Executed, Accepted;
    var calls := AllCalls(items, ps, boundary);
    AllGood(items, ps, boundary);
    assert forall k :: 0 <= k < |calls| - 1 ==> Good(calls[k]);
    AllExecuted(calls, 0);
    var n := |calls| - 1;
    TakeNext(calls, n);
    assert calls[..n + 1] == calls;
    OpsOfConcat(calls[..n], [calls[n]]);
    OpsOfOne(calls[n]);
    FrontWrites(calls, n);
  }

  /** From one end to the other: streamed by the client, framed in chunks, read back by the
      server and parsed from any fragments, the upload arrives as its items exactly when
      there are any, no content holds the delimiter and the opening arrives whole. */
  lemma {:induction false} UploadRoundTrip(items: seq<MultipartFormData>, ps: seq<ProviderItem>, boundary: string,
                                           accept: MultipartParser.Receiver, fragments: seq<string>)
    requires (forall p :: p in ps ==> EventuallyDone(p)) && AllCooperate(ps, 0)
    requires |Serialized(items + AsItems(ps), boundary, true)| < ULONG_MAX
    requires MultipartRoundTrip.Writable(items + AsItems(ps), boundary)
    requires MultipartBodies.Takes(accept, |items + AsItems(ps)|)
    ensures var all := items + AsItems(ps);
            var wire := OpsText(Executed(AllCalls(items, ps, boundary), 0, true), 0);
            var (ok, q) := MultipartParser.Feed(MultipartParser.INITIAL, MultipartParser.Opening(boundary),
                                                MultipartParser.Delimiter(boundary), accept, fragments);
            MultipartBodies.Joined(fragments) == ReadChunked(wire, []).payload ==>
              (ok && q.valid && MultipartBodies.Assembled(q.events) == all
               <==> all != [] && MultipartBodies.Undelimited(all, boundary)
                    && MultipartBodies.OpensWhole(fragments, boundary))
  {
    hide AllCooperate, EventuallyDone, AllCalls, Serialized, Executed, ReadChunked, OpsText;
    hide MultipartRoundTrip.Writable, MultipartBodies.Takes, MultipartBodies.OpensWhole;
    hide MultipartBodies.Undelimited, MultipartBodies.Assembled;
    var wire := OpsText(Executed(AllCalls(items, ps, boundary), 0, true), 0);
    assert wire + "" == wire;
    StreamedUpload(items, ps, boundary, "");
    if MultipartBodies.Joined(fragments) == ReadChunked(wire, []).payload {
      MultipartMissed.RoundTripIff(items + AsItems(ps), boundary, accept, fragments);
    }
  }
}
