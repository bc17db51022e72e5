/** Response bodies for byte ranges (sections 14.4 and 14.6 of RFC 9110): one generator read
    in three ways, and when the announced Content-Length is what is sent. */
module RangeBodies {
  import opened Bytes
  import opened Decimals
  import opened RangeHeader
  import opened Ranges
  import opened Streams

  // ------------------------------------------------------------- specification

  function ContentRange(r: Range, len: nat): string {
    "bytes " + ToString(r.0) + "-" + ToString(r.1) + "/" + ToString(len)
  }

  function Line(name: string, value: string): string { name + value + CRLF }

  const TYPE_NAME := "Content-Type: "
  const RANGE_NAME := "Content-Range: "

  function TypeLine(contentType: string): string {
    if contentType == "" then "" else Line(TYPE_NAME, contentType)
  }

  function PartHead(r: Range, boundary: string, contentType: string, len: nat): string {
    Line(DASH, boundary) + TypeLine(contentType) + Line(RANGE_NAME, ContentRange(r, len)) + CRLF
  }

  /** The bytes of a range that lies inside the content. */
  function Excerpt(content: string, r: Range): string {
    if Inside(r, |content|) then content[r.0..r.1 + 1] else ""
  }

  function Part(r: Range, boundary: string, contentType: string, content: string): string {
    PartHead(r, boundary, contentType, |content|) + Excerpt(content, r) + CRLF
  }

  /** The multipart/byteranges body from the `n`-th range on. */
  function Rendered(ranges: seq<Range>, n: nat, boundary: string, contentType: string, content: string): string
    requires n <= |ranges|
    decreases |ranges| - n
  {
    if n == |ranges| then DASH + boundary + DASH
    else Part(ranges[n], boundary, contentType, content) + Rendered(ranges, n + 1, boundary, contentType, content)
  }

  /** The bytes a response carries for these ranges of its content. */
  function Body(ranges: seq<Range>, boundary: string, contentType: string, content: string): string {
    if ranges == [] then content
    else if |ranges| == 1 then Excerpt(content, ranges[0])
    else Rendered(ranges, 0, boundary, contentType, content)
  }

  // ------------------------------------------------------------ content providers

  /** The sink of a content provider; `offset` counts from the start of the content. */
  class ContentSink {
    const strm: OutStream
    var ok: bool
    var offset: nat

    constructor (strm: OutStream, offset: nat)
      ensures this.strm == strm && ok && this.offset == offset
    {
      this.strm, ok, this.offset := strm, true, offset;
    }

    method Write(data: string)
      modifies this, strm
      ensures ok ==> old(ok) && strm.written == old(strm.written) + data && offset == old(offset) + |data|
      ensures strm.mayFail || ok == old(ok)
    {
      if ok {
        ok := WriteData(strm, data);
        if ok { offset := offset + |data|; }
      }
    }
  }

  function Slice(content: string, i: nat, j: nat): string
    requires i <= j <= |content|
  {
    content[i..j]
  }

  lemma SliceJoin(content: string, i: nat, j: nat, k: nat)
    requires i <= j <= k <= |content|
    ensures Slice(content, i, j) + Slice(content, j, k) == Slice(content, i, k)
  {
  }

  /** A provider that hands out its content faithfully: the next bytes, at least one and at
      most as many as wanted, in pieces of any size. */
  method Provide(content: string, offset: nat, length: nat, sink: ContentSink) returns (more: bool)
    requires 0 < length && offset + length <= |content| && sink.offset == offset && sink.ok
    modifies sink, sink.strm
    ensures sink.strm.mayFail || (more && sink.ok)
    ensures sink.ok ==> offset < sink.offset <= offset + length
                        && sink.strm.written == old(sink.strm.written) + Slice(content, offset, sink.offset)
  {
    var end := Choose(offset + 1, offset + length);
    var at := offset;
    while at < end
      invariant offset <= at <= end
      invariant sink.strm.mayFail || sink.ok
      invariant sink.ok ==> sink.offset == at
      invariant sink.ok ==> sink.strm.written == old(sink.strm.written) + Slice(content, offset, at)
    {
      var next := Choose(at + 1, end);
      SliceJoin(content, offset, at, next);
      Append3(old(sink.strm.written), Slice(content, offset, at), Slice(content, at, next));
      sink.Write(content[at..next]);
      at := next;
    }
    more := true;
    if sink.strm.mayFail { more := *; }
  }

  /** Calls the provider until the window is written; a server that is shutting down may end
      it early and still report success. */
  method WriteContent(strm: OutStream, content: string, offset: nat, length: nat, stopping: bool) returns (r: bool)
    requires offset + length <= |content|
    modifies strm
    ensures strm.mayFail || r
    ensures r && !stopping ==> strm.written == old(strm.written) + Slice(content, offset, offset + length)
    ensures r ==> exists k :: offset <= k <= offset + length
                              && strm.written == old(strm.written) + Slice(content, offset, k)
  {
    var end := offset + length;
    var sink := new ContentSink(strm, offset);
    while sink.offset < end
      invariant sink.ok && offset <= sink.offset <= end
      invariant strm.written == old(strm.written) + Slice(content, offset, sink.offset)
      decreases end - sink.offset
    {
      if stopping {
        if * { break; }
      }
      var at := sink.offset;
      ghost var written := strm.written;
      var more := Provide(content, at, end - at, sink);
      if !more || !sink.ok { return false; }
      SliceJoin(content, offset, at, sink.offset);
      Append3(old(strm.written), Slice(content, offset, at), Slice(content, at, sink.offset));
    }
    r := true;
  }

  // ------------------------------------------------------------- one range

  const SIZE_MOD := 0x1_0000_0000_0000_0000

  /** Offset and end of the window a range stands for, in the unsigned size type. */
  function WindowOf(r: Range): (nat, nat) {
    var offset, length := r.0 % SIZE_MOD, ((r.1 - r.0) % SIZE_MOD + 1) % SIZE_MOD;
    (offset, (offset + length) % SIZE_MOD)
  }

  /** The conversion of one range, and whether the assertions in it hold. */
  method OffsetAndLength(r: Range, len: nat) returns (asserted: bool, offset: nat, length: nat)
    ensures asserted == Inside(r, len)
    ensures asserted ==> offset == r.0 && offset + length == r.1 + 1
  {
    asserted := r.0 != -1 && r.1 != -1 && 0 <= r.0 < len && r.0 <= r.1 < len;
    offset, length := 0, 0;
    if asserted { offset, length := r.0, r.1 - r.0 + 1; }
  }

  /** Which of the ranges a request can carry pass these assertions as they are; without the
      assertions the window of a range with an absent position is empty, and that of any
      other reaches from its first to its last position, inside the content or not. */
  lemma {:induction false} RawRange(r: Range, len: nat)
    requires RangeHeader.Valid(r) && RangeHeader.FitsSsize(r)
    ensures Inside(r, len) <==> r.0 != -1 && r.1 != -1 && r.1 < len
    ensures r.0 == -1 || r.1 == -1 ==> WindowOf(r).1 <= WindowOf(r).0
    ensures r.0 != -1 && r.1 != -1 ==> WindowOf(r) == (r.0, r.1 + 1)
  {
    var d := r.1 - r.0;
    if r.0 == -1 {
      assert r.0 % SIZE_MOD == SIZE_MOD - 1;
    } else if r.1 == -1 && r.0 > 0 {
      assert d % SIZE_MOD == SIZE_MOD + d;
    }
  }

  // ------------------------------------------------------------- the generator

  datatype Reading = Building | Measuring | Sending

  /** What the tokens and excerpts of a multipart body go to: a string, a length, or a
      stream. `text` is everything received so far. Tokens are written without repeating
      short writes; `lost` counts the bytes of tokens that the stream did not take. */
  class RangeSink {
    const reading: Reading
    const content: string
    const strm: OutStream
    const stopping: bool
    var data: string
    var dataLength: nat
    ghost var text: string
    ghost var lost: nat
    ghost const base: string

    /** No write fails and the server is not shutting down. */
    ghost predicate Steady() { reading == Sending ==> !strm.mayFail && !stopping }

    ghost predicate Valid()
      reads this, strm
    {
      match reading
      case Building => data == text
      case Measuring => dataLength == |text|
      case Sending =>
        Steady() ==>
          |strm.written| + lost == |base| + |text| && (lost == 0 ==> strm.written == base + text)
          && (strm.fullWrites ==> lost == 0)
    }

    constructor (reading: Reading, content: string, strm: OutStream, stopping: bool)
      ensures Valid() && text == "" && lost == 0 && base == strm.written
      ensures this.reading == reading && this.content == content && this.strm == strm && this.stopping == stopping
    {
      this.reading, this.content, this.strm, this.stopping := reading, content, strm, stopping;
      data, dataLength, text, lost, base := "", 0, "", 0, strm.written;
    }

    method Token(t: string)
      requires Valid()
      modifies this`data, this`dataLength, this`text, this`lost, strm
      ensures Valid() && text == old(text) + t
    {
      match reading {
        case Building => data := data + t;
        case Measuring => dataLength := dataLength + |t|;
        case Sending =>
          var n := strm.Write(t);
          lost := lost + |t| - if n < 0 then 0 else n;
          Append3(base, text, t);
      }
      text := text + t;
    }

    method Content(offset: nat, length: nat) returns (ok: bool)
      requires Valid() && offset + length <= |content|
      modifies this`data, this`dataLength, this`text, this`lost, strm
      ensures Valid() && text == old(text) + Slice(content, offset, offset + length)
      ensures Steady() ==> ok
    {
      ghost var piece := Slice(content, offset, offset + length);
      ok := true;
      match reading {
        case Building => data := data + content[offset..offset + length];
        case Measuring => dataLength := dataLength + length;
        case Sending =>
          ok := WriteContent(strm, content, offset, length, stopping);
          Append3(base, text, piece);
      }
      text := text + piece;
    }

    method WriteLine(name: string, value: string)
      requires Valid()
      modifies this`data, this`dataLength, this`text, this`lost, strm
      ensures Valid() && text == old(text) + Line(name, value)
    {
      hide Valid;
      Token(name);
      Token(value);
      Token(CRLF);
      assert text == old(text) + Line(name, value) by {
        Append3(old(text), name, value);
        Append3(old(text), name + value, CRLF);
      }
    }

    method PartHeader(r: Range, boundary: string, contentType: string, contentLength: nat)
      requires Valid()
      modifies this`data, this`dataLength, this`text, this`lost, strm
      ensures Valid() && text == old(text) + PartHead(r, boundary, contentType, contentLength)
    {
      hide Decimals.Dec, Decimals.ToString, Line, Valid;
      ghost var was := text;
      WriteLine(DASH, boundary);
      if contentType != "" { WriteLine(TYPE_NAME, contentType); }
      assert text == was + (Line(DASH, boundary) + TypeLine(contentType)) by {
        Append3(was, Line(DASH, boundary), TypeLine(contentType));
      }
      var field := "bytes " + ToString(r.0) + "-" + ToString(r.1) + "/" + ToString(contentLength);
      WriteLine(RANGE_NAME, field);
      Append3(was, Line(DASH, boundary) + TypeLine(contentType), Line(RANGE_NAME, field));
      Token(CRLF);
      Append3(was, Line(DASH, boundary) + TypeLine(contentType) + Line(RANGE_NAME, field), CRLF);
    }

    /** One part; a range outside the content trips an assertion behind the part's first lines. */
    method WritePart(r: Range, boundary: string, contentType: string, contentLength: nat)
      returns (asserted: bool, ok: bool)
      requires Valid() && |content| == contentLength
      modifies this`data, this`dataLength, this`text, this`lost, strm
      ensures Valid() && asserted == Inside(r, contentLength) && (Steady() ==> ok)
      ensures asserted && ok ==> text == old(text) + Part(r, boundary, contentType, content)
    {
      hide PartHead, Valid;
      ghost var was := text;
      ok := true;
      var offset, length;
      asserted, offset, length := OffsetAndLength(r, contentLength);
      if !asserted {
        WriteLine(DASH, boundary);
        if contentType != "" { WriteLine(TYPE_NAME, contentType); }
        return;
      }
      PartHeader(r, boundary, contentType, contentLength);
      ok := Content(offset, length);
      if !ok { return; }
      Token(CRLF);
      ghost var head := PartHead(r, boundary, contentType, contentLength);
      Append3(was, head, Excerpt(content, r));
      Append3(was, head + Excerpt(content, r), CRLF);
    }

    /** The generator: one part for each range, then the closing delimiter. */
    method ProcessMultipartRangesData(ranges: seq<Range>, boundary: string, contentType: string, contentLength: nat)
      returns (asserted: bool, ok: bool)
      requires Valid() && |content| == contentLength
      modifies this`data, this`dataLength, this`text, this`lost, strm
      ensures Valid() && (!asserted ==> !AllInside(ranges, |ranges|, contentLength))
      ensures asserted && ok ==> AllInside(ranges, |ranges|, contentLength)
                                 && text == old(text) + Rendered(ranges, 0, boundary, contentType, content)
      ensures Steady() ==> ok
    {
      hide Part, Valid, Inside;
      ok, asserted := true, true;
      ghost var out, rest := "", Rendered(ranges, 0, boundary, contentType, content);
      for i := 0 to |ranges|
        invariant Valid() && asserted && ok && text == old(text) + out && AllInside(ranges, i, contentLength)
        invariant rest == Rendered(ranges, i, boundary, contentType, content)
        invariant out + rest == Rendered(ranges, 0, boundary, contentType, content)
      {
        asserted, ok := WritePart(ranges[i], boundary, contentType, contentLength);
        if !asserted || !ok { return; }
        ghost var part := Part(ranges[i], boundary, contentType, content);
        rest := Rendered(ranges, i + 1, boundary, contentType, content);
        Append3(old(text), out, part);
        Append3(out, part, rest);
        out := out + part;
      }
      Token(DASH);
      Token(boundary);
      Token(DASH);
      Append3(old(text) + out, DASH, boundary);
      Append3(old(text) + out, DASH + boundary, DASH);
      Append3(old(text), out, rest);
    }
  }

  // ----------------------------------------------------------- serving a response

  const PARTIAL_CONTENT := 206

  /** The announced length of a response whose content comes from a provider. Only partial
      content looks at its ranges here. */
  method ApplyRanges(ranges: seq<Range>, status: int, boundary: string, contentType: string, content: string)
    returns (length: nat, contentRange: Option<string>)
    requires status == PARTIAL_CONTENT ==> AllInside(ranges, |ranges|, |content|)
    ensures length == Announced(ranges, status, boundary, contentType, content)
    ensures contentRange == if |ranges| == 1 && status == PARTIAL_CONTENT
                            then Some(ContentRange(ranges[0], |content|)) else None
  {
    contentRange := None;
    if ranges == [] || status != PARTIAL_CONTENT {
      length := |content|;
    } else if |ranges| == 1 {
      var asserted, offset;
      asserted, offset, length := OffsetAndLength(ranges[0], |content|);
      var field := "bytes " + ToString(offset) + "-" + ToString(offset + length - 1) + "/" + ToString(|content|);
      contentRange := Some(field);
    } else {
      var strm := new OutStream(false, true);
      var sink := new RangeSink(Measuring, content, strm, false);
      var asserted, ok := sink.ProcessMultipartRangesData(ranges, boundary, contentType, |content|);
      ghost var text := Rendered(ranges, 0, boundary, contentType, content);
      assert "" + text == text;
      length := sink.dataLength;
    }
  }

  function Announced(ranges: seq<Range>, status: int, boundary: string, contentType: string, content: string): nat {
    if status == PARTIAL_CONTENT then |Body(ranges, boundary, contentType, content)| else |content|
  }

  /** The same for a body held in a string, which is replaced; Content-Length is then its
      length. */
  method ApplyRangesToBody(ranges: seq<Range>, status: int, boundary: string, contentType: string, content: string)
    returns (body: string)
    requires status == PARTIAL_CONTENT ==> AllInside(ranges, |ranges|, |content|)
    ensures body == if status == PARTIAL_CONTENT then Body(ranges, boundary, contentType, content) else content
  {
    if ranges == [] || status != PARTIAL_CONTENT {
      body := content;
    } else if |ranges| == 1 {
      var asserted, offset, length := OffsetAndLength(ranges[0], |content|);
      body := content[offset..offset + length];
    } else {
      var strm := new OutStream(false, true);
      var sink := new RangeSink(Building, content, strm, false);
      var asserted, ok := sink.ProcessMultipartRangesData(ranges, boundary, contentType, |content|);
      ghost var text := Rendered(ranges, 0, boundary, contentType, content);
      assert "" + text == text;
      body := sink.data;
    }
  }

  /** The body of a provider response, whatever the status: every range is converted, and one
      outside the content trips an assertion. On a stream that does not fail, under a server
      that is not shutting down, exactly the bytes that token writes did not take are missing. */
  method WriteContentWithProvider(strm: OutStream, ranges: seq<Range>, boundary: string, contentType: string,
                                  content: string, stopping: bool)
    returns (asserted: bool, ok: bool, ghost lost: nat)
    requires content != ""
    modifies strm
    ensures !asserted ==> !AllInside(ranges, |ranges|, |content|)
    ensures asserted && ok ==> AllInside(ranges, |ranges|, |content|)
    ensures asserted && !strm.mayFail && !stopping ==>
              ok && Missing(old(strm.written), strm.written, Body(ranges, boundary, contentType, content), lost)
              && (strm.fullWrites || |ranges| <= 1 ==> lost == 0)
    ensures |ranges| <= 1 && asserted && ok && !stopping ==>
              strm.written == old(strm.written) + Body(ranges, boundary, contentType, content)
  {
    lost := 0;
    asserted := true;
    if ranges == [] {
      ok := WriteContent(strm, content, 0, |content|, stopping);
      assert content[0..|content|] == content;
    } else if |ranges| == 1 {
      var offset, length;
      asserted, offset, length := OffsetAndLength(ranges[0], |content|);
      ok := true;
      if asserted { ok := WriteContent(strm, content, offset, length, stopping); }
    } else {
      var sink := new RangeSink(Sending, content, strm, stopping);
      asserted, ok := sink.ProcessMultipartRangesData(ranges, boundary, contentType, |content|);
      ghost var text := Rendered(ranges, 0, boundary, contentType, content);
      assert "" + text == text;
      lost := sink.lost;
    }
  }

  /** `lost` bytes of the body have not been written; it is complete exactly without any. */
  ghost predicate Missing(before: string, written: string, body: string, lost: nat) {
    |written| + lost == |before| + |body| && (lost == 0 <==> written == before + body)
  }

  // ------------------------------------------- from the request's ranges to the answer

  /** The ranges a response is made with: checked and rewritten for a successful status, none
      when they are refused, and untouched for every other status. */
  function Effective(raw: seq<Range>, status: int, len: nat): Option<seq<Range>> {
    var n := NormalizedAll(raw, len);
    if !Applies(raw, status) then Some(raw)
    else if |n| <= RANGE_MAX_COUNT && Acceptable(n, |n|, len) then Some(n)
    else None
  }

  datatype Answer = NotSatisfiable | Aborted | Answered(announced: nat, ok: bool)

  /** Check, announcement and body of a response with a content provider. */
  method Serve(strm: OutStream, ranges: array<Range>, status: int, boundary: string, contentType: string,
               content: string, stopping: bool)
    returns (answer: Answer, ghost lost: nat)
    requires content != ""
    modifies strm, ranges
    ensures var served := Effective(old(ranges[..]), status, |content|);
            (answer == NotSatisfiable <==> served == None)
            && (answer == Aborted ==> served.Some? && !AllInside(served.value, |served.value|, |content|))
            && (answer.Answered? ==>
                  served.Some? && answer.announced == Announced(served.value, status, boundary, contentType, content))
            && (answer.Answered? && answer.ok ==> AllInside(served.value, |served.value|, |content|))
    ensures var served := Effective(old(ranges[..]), status, |content|);
            answer.Answered? && !strm.mayFail && !stopping ==>
              answer.ok
              && Missing(old(strm.written), strm.written, Body(served.value, boundary, contentType, content), lost)
              && (strm.fullWrites || |served.value| <= 1 ==> lost == 0)
  {
    hide Body, Announced, Missing, Acceptable, NormalizedAll;
    lost := 0;
    var error := RangeError(ranges, status, |content|, 0);
    if error { return NotSatisfiable, 0; }
    var rs := ranges[..];
    if status == PARTIAL_CONTENT { Accepted(rs, status, |content|, old(ranges[..])); }
    var length, field := ApplyRanges(rs, status, boundary, contentType, content);
    var asserted, ok;
    asserted, ok, lost := WriteContentWithProvider(strm, rs, boundary, contentType, content, stopping);
    answer := if asserted then Answered(length, ok) else Aborted;
  }

  /** A successful status leaves only ranges inside the content. */
  lemma Accepted(rs: seq<Range>, status: int, len: nat, raw: seq<Range>)
    requires 200 <= status < 300 && Effective(raw, status, len) == Some(rs)
    ensures AllInside(rs, |rs|, len)
  {
  }

  // ------------------------------------------------- announced against sent length

  /** Bytes a part adds around its excerpt. */
  function Overhead(r: Range, boundary: string, contentType: string, len: nat): nat {
    33 + |boundary| + |ToString(r.0)| + |ToString(r.1)| + |ToString(len)|
    + if contentType == "" then 0 else 16 + |contentType|
  }

  function Framing(ranges: seq<Range>, n: nat, boundary: string, contentType: string, len: nat): nat
    requires n <= |ranges|
    decreases |ranges| - n
  {
    if n == |ranges| then 4 + |boundary|
    else Overhead(ranges[n], boundary, contentType, len) + Framing(ranges, n + 1, boundary, contentType, len)
  }

  lemma PartLength(r: Range, boundary: string, contentType: string, content: string)
    requires Inside(r, |content|)
    ensures |Part(r, boundary, contentType, content)|
            == Overhead(r, boundary, contentType, |content|) + r.1 - r.0 + 1
  {
  }

  lemma {:induction false} RenderedLength(ranges: seq<Range>, n: nat, boundary: string, contentType: string,
                                          content: string)
    requires n <= |ranges| && AllInside(ranges, |ranges|, |content|)
    ensures |Rendered(ranges, n, boundary, contentType, content)| + Selected(ranges, n)
            == Selected(ranges, |ranges|) + Framing(ranges, n, boundary, contentType, |content|)
    decreases |ranges| - n
  {
    hide Part, Overhead;
    if n < |ranges| {
      PartLength(ranges[n], boundary, contentType, content);
      RenderedLength(ranges, n + 1, boundary, contentType, content);
    }
  }

  /** Content-Length tells the truth about a provider response: no assertion is tripped, and
      the body is as long as announced. A refused request has an empty answer. */
  predicate Truthful(raw: seq<Range>, status: int, boundary: string, contentType: string, content: string) {
    var served := Effective(raw, status, |content|);
    served == None
    || (AllInside(served.value, |served.value|, |content|)
        && Announced(served.value, status, boundary, contentType, content)
           == |Body(served.value, boundary, contentType, content)|)
  }

  /** Ranges whose body happens to be as long as the content. */
  predicate CoverContent(rs: seq<Range>, boundary: string, contentType: string, len: nat) {
    (|rs| == 1 && rs[0] == (0, len - 1))
    || (|rs| > 1 && Selected(rs, |rs|) + Framing(rs, 0, boundary, contentType, len) == len)
  }

  /** For a successful status it does so exactly for partial content, without ranges, for
      refused ranges, and for ranges that cover the content once rewritten. For any other
      status the ranges come as the request has them: then there must be none, or they must
      all be bounded and inside the content, and cover it. */
  lemma {:induction false} ContentLengthIff(raw: seq<Range>, status: int, boundary: string, contentType: string,
                                            content: string)
    ensures var len := |content|;
            var n := NormalizedAll(raw, len);
            Truthful(raw, status, boundary, contentType, content) <==>
            raw == []
            || if 200 <= status < 300
               then status == 206 || |n| > 1024 || !Acceptable(n, |n|, len)
                    || CoverContent(n, boundary, contentType, len)
               else AllInside(raw, |raw|, len) && CoverContent(raw, boundary, contentType, len)
  {
    hide Rendered, Framing, Acceptable;
    var served := Effective(raw, status, |content|);
    if served.Some? {
      var rs := served.value;
      if 200 <= status < 300 { Accepted(rs, status, |content|, raw); }
      if AllInside(rs, |rs|, |content|) { RenderedLength(rs, 0, boundary, contentType, content); }
    }
  }

  /** A body of accepted ranges is at most three times the content, plus the framing. */
  lemma {:induction false} BodyBound(ranges: seq<Range>, boundary: string, contentType: string, content: string)
    requires ranges != [] && Acceptable(ranges, |ranges|, |content|)
    ensures |Body(ranges, boundary, contentType, content)|
            <= 3 * |content| + if |ranges| == 1 then 0 else Framing(ranges, 0, boundary, contentType, |content|)
  {
    hide Rendered, Framing, OverlapCount;
    RenderedLength(ranges, 0, boundary, contentType, content);
    AtMostThreeTimes(ranges, |content|);
  }
}
