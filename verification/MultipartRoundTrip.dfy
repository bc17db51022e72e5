/** Parsing undoes serializing, however the body is cut into fragments. */
module MultipartRoundTrip {
  import opened Bytes
  import opened Fields
  import opened PartHeaders
  import opened MultipartParser
  import opened MultipartSerializer
  import opened MultipartBodies

  /** Header lines that can be written, and are not too long to be read. */
  predicate WellFormed(item: MultipartFormData) {
    && WritableHeaders(item)
    && |DispositionLine(item)| < HEADER_MAX_LENGTH
    && |ContentTypeLine(item)| < HEADER_MAX_LENGTH
  }

  ghost predicate Writable(items: seq<MultipartFormData>, boundary: string) {
    '\r' !in boundary && forall n :: 0 <= n < |items| ==> WellFormed(items[n])
  }

  ghost predicate Serializable(items: seq<MultipartFormData>, boundary: string) {
    items != [] && Writable(items, boundary) && Undelimited(items, boundary)
  }

  // ------------------------------------------- a serialized body as a body of parts

  function HeaderLines(item: MultipartFormData): seq<string> {
    [DispositionLine(item)] + if item.contentType == "" then [] else [ContentTypeLine(item)]
  }

  function Written(items: seq<MultipartFormData>): (parts: seq<BodyPart>)
    ensures |parts| == |items|
    ensures forall n :: 0 <= n < |items| ==> parts[n] == BodyPart(HeaderLines(items[n]), items[n])
  {
    seq(|items|, n requires 0 <= n < |items| => BodyPart(HeaderLines(items[n]), items[n]))
  }

  lemma WrittenItems(items: seq<MultipartFormData>)
    ensures Items(Written(items)) == items
  {
  }

  lemma {:induction false} LinesOf(item: MultipartFormData, after: string)
    ensures LinesText(HeaderLines(item), 0) + (CRLF + after) == HeaderBlock(item) + after
  {
    hide DispositionLine, ContentTypeLine;
    var lines := HeaderLines(item);
    assert LinesText(lines, |lines|) == "";
    Append3(LinesText(lines, 0), CRLF, after);
    if item.contentType == "" {
      assert LinesText(lines, 0) + CRLF == HeaderBlock(item);
    } else {
      assert LinesText(lines, 1) == TypePart(item) + "";
      assert LinesText(lines, 0) == DispositionLine(item) + CRLF + TypePart(item);
      Append3(DispositionLine(item) + CRLF, TypePart(item), CRLF);
    }
  }

  lemma {:induction false} WrittenText(items: seq<MultipartFormData>, n: nat, boundary: string)
    requires n <= |items|
    ensures PartsTail(Written(items), n, boundary) == TailFrom(items, n, boundary)
    ensures n < |items| ==> AfterLines(Written(items), n, boundary) == AfterHeaders(items, n, boundary)
    decreases |items| - n
  {
    hide LinesText, HeaderBlock, HeaderLines, Delimiter;
    if n < |items| {
      WrittenText(items, n + 1, boundary);
      LinesOf(items[n], AfterHeaders(items, n, boundary));
    }
  }

  lemma {:induction false} WrittenBody(items: seq<MultipartFormData>, boundary: string)
    ensures BodyText(Written(items), boundary) == Serialized(items, boundary, true)
  {
    WrittenText(items, 0, boundary);
    SerializedIsDelimited(items, 0, boundary);
  }

  lemma DispositionLineClean(item: MultipartFormData)
    requires WritableHeaders(item)
    ensures '\r' !in DispositionLine(item) && DispositionLine(item) != ""
    ensures '\r' !in ContentTypeLine(item) && ContentTypeLine(item) != ""
  {
    ParamTextEnds(item);
    var t := ParamText(item);
    assert '\r' !in t;
    assert '\r' !in item.contentType;
  }

  lemma {:induction false} WrittenReadable(item: MultipartFormData)
    requires WellFormed(item)
    ensures Readable(BodyPart(HeaderLines(item), item))
  {
    hide PartHeader, DispositionLine, ContentTypeLine, WritableHeaders;
    var lines := HeaderLines(item);
    DispositionLineClean(item);
    ReadDisposition(item);
    assert FileAfter(lines, 0) == NO_FILE;
    assert FileAfter(lines, 1) == NO_FILE.(name := item.name, filename := item.filename);
    assert Taken(lines, 0);
    if item.contentType != "" {
      ReadContentType(item, FileAfter(lines, 1));
      assert Taken(lines, 1);
      assert FileAfter(lines, 2) == WithContent(item, "");
    }
  }

  lemma {:induction false} AllWrittenReadable(items: seq<MultipartFormData>, boundary: string)
    requires Writable(items, boundary)
    ensures AllReadable(Written(items), boundary)
  {
    hide Readable, WellFormed;
    forall n | 0 <= n < |items| ensures Readable(Written(items)[n]) { WrittenReadable(items[n]); }
  }

  /** However a serialized body is cut, as long as the opening delimiter arrives whole, the
      parser accepts every fragment, ends valid, and reports exactly the items in order. */
  lemma {:induction false} RoundTrip(items: seq<MultipartFormData>, boundary: string, accept: Receiver,
                                     fragments: seq<string>)
    requires Serializable(items, boundary) && Takes(accept, |items|)
    requires Joined(fragments) == Serialized(items, boundary, true) && OpensWhole(fragments, boundary)
    ensures var (ok, q) := Feed(INITIAL, Opening(boundary), Delimiter(boundary), accept, fragments);
            ok && q.valid && Assembled(q.events) == items
  {
    hide Takes, AllReadable, Opening, Delimiter, Assembled, BodyText, Written, Serialized, OpensWhole;
    WrittenItems(items);
    WrittenBody(items, boundary);
    AllWrittenReadable(items, boundary);
    BodyRead(Written(items), boundary, accept, fragments, "");
  }
}
