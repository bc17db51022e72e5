/** When reading a chunked body gives back what the provider wrote. */
module ChunkedRoundTrip {
  import opened Bytes
  import opened Fields
  import opened Lines
  import opened HeaderBlocks
  import opened ChunkSizes
  import opened Chunked
  import opened ChunkedReader

  /** The payload of the operations from `n` to `k`. */
  function Written(ops: seq<SinkOp>, n: nat, k: nat): string
    requires n <= k <= |ops|
    decreases k - n
  {
    if n == k then "" else (if ops[n].Write? then ops[n].data else "") + Written(ops, n + 1, k)
  }

  /** The first operation that ends the body, or |ops|. */
  function FirstDone(ops: seq<SinkOp>, n: nat): (k: nat)
    requires n <= |ops|
    ensures n <= k <= |ops| && (k < |ops| ==> !ops[k].Write?)
    ensures forall i :: n <= i < k ==> ops[i].Write?
    decreases |ops| - n
  {
    if n < |ops| && ops[n].Write? then FirstDone(ops, n + 1) else n
  }

  function TrailerOf(op: SinkOp): seq<Header> { if op.DoneWithTrailer? then op.trailer else [] }

  /** Sizes fit the C library's reader, and trailer fields are legal. */
  predicate Sendable(ops: seq<SinkOp>) {
    forall i :: 0 <= i < |ops| ==>
      (ops[i].Write? ==> |ops[i].data| < ULONG_MAX)
      && forall j :: 0 <= j < |TrailerOf(ops[i])| ==> LegalField(TrailerOf(ops[i])[j])
  }

  /** A chunk size line expected at the front of `s`. */
  function ChunksAt(s: string, payload: string, headers: seq<Header>): ChunkedRead {
    match LineThen(s)
    case None => REFUSED
    case Some(next) => Chunks(next.0, next.1, payload, headers)
  }

  lemma LineThenOf(line: string, rest: string)
    requires '\r' !in line && |line| + 2 <= MAX_LINE_LENGTH
    ensures LineThen(line + CRLF + rest) == Some((line + CRLF, rest))
  {
    LineOf(line, rest);
  }

  lemma CrlfLine(rest: string)
    ensures LineThen(CRLF + rest) == Some((CRLF, rest)) && CStr(CRLF) == CRLF
  {
    assert "" + CRLF == CRLF;
    LineThenOf("", rest);
    assert IndexFrom(CRLF, '\0', 0) == 2;
  }

  lemma {:induction false} ChunkRead(data: string, more: string, payload: string, headers: seq<Header>)
    requires 0 < |data| < ULONG_MAX
    ensures ChunksAt(Chunk(data) + more, payload, headers) == ChunksAt(more, payload + data, headers)
  {
    hide LineThen, StrToUl16, CStr, Hex;
    var line, s := Hex(|data|) + CRLF, data + (CRLF + more);
    SizeRead(|data|);
    Append3(line, data + CRLF, more);
    Append3(data, CRLF, more);
    LineThenOf(Hex(|data|), s);
    CrlfLine(more);
    assert s[|data|..] == CRLF + more && s[..|data|] == data;
  }

  lemma {:induction false} FieldIsLine(h: Header, more: string, payload: string, before: seq<Header>)
    requires LegalField(h)
    ensures LineThen(FieldLine(h) + more) == Some((FieldLine(h), more))
    ensures CStr(FieldLine(h)) != CRLF && |FieldLine(h)| <= HEADER_MAX_LENGTH
    ensures TrailerAdded(FieldLine(h), before) == before + [Decoded(h)]
  {
    hide ParsedHeader, UrlDecoded, KeepsEscapes, LineThen, IsFieldValue;
    var text := h.0 + ": " + h.1;
    FieldLineClean(h);
    LineThenOf(text, more);
    ParsedHeaderOf(h.0, h.1);
    assert FieldLine(h)[..|FieldLine(h)| - 2] == text;
    assert FieldLine(h)[0] == h.0[0] && IsTokenChar(h.0[0]);
  }

  /** The trailer section as written, from field `n` on. */
  lemma {:induction false} TrailersRead(fields: seq<Header>, n: nat, rest: string, payload: string, before: seq<Header>)
    requires n <= |fields| && forall j :: 0 <= j < |fields| ==> LegalField(fields[j])
    ensures var next := LineThen(FieldLines(fields, n) + (CRLF + rest));
            next.Some? && Trailers(next.value.0, next.value.1, payload, before) ==
                          ChunkedRead(true, payload, before + HeaderBlocks.DecodedFrom(fields, n), rest)
    decreases |fields| - n
  {
    hide LineThen, CStr, TrailerAdded, LegalField, Decoded, FieldLine;
    if n == |fields| {
      assert "" + (CRLF + rest) == CRLF + rest;
      CrlfLine(rest);
      assert before + [] == before;
    } else {
      var more := FieldLines(fields, n + 1) + (CRLF + rest);
      Append3(FieldLine(fields[n]), FieldLines(fields, n + 1), CRLF + rest);
      FieldIsLine(fields[n], more, payload, before);
      TrailersRead(fields, n + 1, rest, payload, before + [Decoded(fields[n])]);
      Append3(before, [Decoded(fields[n])], HeaderBlocks.DecodedFrom(fields, n + 1));
    }
  }

  lemma DoneText(op: SinkOp)
    requires !op.Write?
    ensures OpText(op) == LAST_CHUNK + HeaderText(TrailerOf(op))
  {
    if op.Done? { assert "" + CRLF == CRLF; }
  }

  lemma {:induction false} LastChunkRead(fields: seq<Header>, rest: string, payload: string)
    requires forall j :: 0 <= j < |fields| ==> LegalField(fields[j])
    ensures ChunksAt(LAST_CHUNK + HeaderText(fields) + rest, payload, []) ==
            ChunkedRead(true, payload, HeaderBlocks.DecodedFrom(fields, 0), rest)
  {
    hide LineThen, CStr, StrToUl16, Trailers, LegalField, FieldLines;
    var s := FieldLines(fields, 0) + (CRLF + rest);
    Append3(LAST_CHUNK, HeaderText(fields), rest);
    Append3(FieldLines(fields, 0), CRLF, rest);
    assert Hex(0) == "0" && LAST_CHUNK == "0" + CRLF;
    LineThenOf("0", s);
    SizeRead(0);
    TrailersRead(fields, 0, rest, payload, []);
    assert [] + HeaderBlocks.DecodedFrom(fields, 0) == HeaderBlocks.DecodedFrom(fields, 0);
  }

  lemma {:induction false} WriteRead(data: string, more: string, payload: string)
    requires |data| < ULONG_MAX
    ensures ChunksAt(OpText(Write(data)) + more, payload, []) == ChunksAt(more, payload + data, [])
  {
    hide ChunksAt, Chunk;
    if data == "" {
      assert "" + more == more && payload + data == payload;
    } else {
      ChunkRead(data, more, payload, []);
    }
  }

  /** Reading the operations from `n` on stops behind the first one that ends the body. */
  lemma {:induction false} OpsRead(ops: seq<SinkOp>, n: nat, payload: string, rest: string)
    requires n <= |ops| && Sendable(ops)
    ensures var k := FirstDone(ops, n);
            ChunksAt(OpsText(ops, n) + rest, payload, []) ==
            if k == |ops| then ChunksAt(rest, payload + Written(ops, n, k), [])
            else ChunkedRead(true, payload + Written(ops, n, k), HeaderBlocks.DecodedFrom(TrailerOf(ops[k]), 0),
                             OpsText(ops, k + 1) + rest)
    decreases |ops| - n
  {
    hide ChunksAt, OpText, HeaderText, LegalField;
    if n == |ops| {
      assert "" + rest == rest && payload + "" == payload;
    } else {
      var more := OpsText(ops, n + 1) + rest;
      Append3(OpText(ops[n]), OpsText(ops, n + 1), rest);
      if ops[n].Write? {
        var data := ops[n].data;
        WriteRead(data, more, payload);
        OpsRead(ops, n + 1, payload + data, rest);
        Append3(payload, data, Written(ops, n + 1, FirstDone(ops, n + 1)));
      } else {
        DoneText(ops[n]);
        LastChunkRead(TrailerOf(ops[n]), more, payload);
        assert payload + "" == payload;
      }
    }
  }

  /** Some operation ends the body, and only empty writes follow it. */
  predicate Terminated(ops: seq<SinkOp>) {
    var k := FirstDone(ops, 0);
    k < |ops| && forall j :: k < j < |ops| ==> ops[j] == Write("")
  }

  lemma OpSilent(op: SinkOp)
    ensures OpText(op) == "" <==> op == Write("")
  {
    match op
    case Write(data) => if data != "" { assert |Chunk(data)| >= |data|; }
    case Done => assert |OpText(op)| == 5;
    case DoneWithTrailer(trailer) => assert |OpText(op)| >= 3;
  }

  lemma {:induction false} SilentTail(ops: seq<SinkOp>, n: nat)
    requires n <= |ops|
    ensures OpsText(ops, n) == "" <==> forall j :: n <= j < |ops| ==> ops[j] == Write("")
    ensures OpsText(ops, n) == "" ==> Written(ops, n, |ops|) == ""
    decreases |ops| - n
  {
    hide OpText;
    if n < |ops| {
      SilentTail(ops, n + 1);
      OpSilent(ops[n]);
      assert |OpsText(ops, n)| == |OpText(ops[n])| + |OpsText(ops, n + 1)|;
    }
  }

  lemma {:induction false} WrittenSplit(ops: seq<SinkOp>, n: nat, k: nat)
    requires n <= k <= |ops|
    ensures Written(ops, n, |ops|) == Written(ops, n, k) + Written(ops, k, |ops|)
    decreases k - n
  {
    if n < k {
      WrittenSplit(ops, n + 1, k);
      Append3(if ops[n].Write? then ops[n].data else "", Written(ops, n + 1, k), Written(ops, k, |ops|));
    } else {
      assert "" + Written(ops, k, |ops|) == Written(ops, k, |ops|);
    }
  }

  lemma PayloadUpToDone(ops: seq<SinkOp>, k: nat)
    requires k < |ops| && !ops[k].Write? && OpsText(ops, k + 1) == ""
    ensures Written(ops, 0, |ops|) == Written(ops, 0, k)
  {
    WrittenSplit(ops, 0, k);
    SilentTail(ops, k + 1);
    assert Written(ops, k, |ops|) == "" + Written(ops, k + 1, |ops|);
    assert Written(ops, 0, k) + "" == Written(ops, 0, k);
  }

  lemma NothingThere(payload: string)
    ensures !ChunksAt("", payload, []).ok
  {
  }

  /** Whatever the provider did with the sink: the reader gets all of it and leaves nothing
      behind exactly when the body was ended and nothing but empty writes came after. */
  lemma {:induction false} ChunkedRoundTripIff(ops: seq<SinkOp>)
    requires Sendable(ops)
    ensures var r := ReadChunked(OpsText(ops, 0), []);
            (r.ok && r.payload == Written(ops, 0, |ops|) && r.rest == "") <==> Terminated(ops)
  {
    hide ChunksAt, Chunks, OpText, Sendable;
    var s, k := OpsText(ops, 0), FirstDone(ops, 0);
    assert s + "" == s;
    OpsRead(ops, 0, "", "");
    assert ReadChunked(s, []) == ChunksAt(s, "", []) by { ReadIsChunksAt(s); }
    assert "" + Written(ops, 0, k) == Written(ops, 0, k);
    if k == |ops| {
      NothingThere(Written(ops, 0, k));
    } else {
      SilentTail(ops, k + 1);
      assert OpsText(ops, k + 1) + "" == OpsText(ops, k + 1);
      if OpsText(ops, k + 1) == "" { PayloadUpToDone(ops, k); }
    }
  }

  lemma ReadIsChunksAt(s: string)
    ensures ReadChunked(s, []) == ChunksAt(s, "", [])
  {
  }

  /** A terminated body in front of any other bytes: exactly the payload, the trailer as
      written unless a value holds a percent escape, and every later byte left unread. */
  lemma {:induction false} ChunkedRoundTrip(ops: seq<SinkOp>, rest: string)
    requires Sendable(ops) && Terminated(ops)
    ensures var r := ReadChunked(OpsText(ops, 0) + rest, []);
            var trailer := TrailerOf(ops[FirstDone(ops, 0)]);
            r.ok && r.payload == Written(ops, 0, |ops|) && r.rest == rest
            && (r.headers == trailer <==> forall j :: 0 <= j < |trailer| ==> Unescaped(trailer[j]))
  {
    hide ChunksAt, Chunks, OpText, Sendable, Unescaped;
    var s, k := OpsText(ops, 0) + rest, FirstDone(ops, 0);
    OpsRead(ops, 0, "", rest);
    ReadIsChunksAt(s);
    assert "" + Written(ops, 0, k) == Written(ops, 0, k);
    SilentTail(ops, k + 1);
    assert "" + rest == rest;
    PayloadUpToDone(ops, k);
    var trailer := TrailerOf(ops[k]);
    DecodedAll(trailer, 0);
    assert trailer[0..] == trailer;
  }
}
