/** Writing and reading a block of header lines. */
module HeaderBlocks {
  import opened Bytes
  import opened Fields
  import opened Streams
  import opened Lines

  // ------------------------------------------------------------------- writing

  function FieldLine(h: Header): string { h.0 + ": " + h.1 + CRLF }

  function FieldLines(headers: seq<Header>, n: nat): string
    requires n <= |headers|
    decreases |headers| - n
  {
    if n == |headers| then "" else FieldLine(headers[n]) + FieldLines(headers, n + 1)
  }

  function HeaderText(headers: seq<Header>): string { FieldLines(headers, 0) + CRLF }

  /** One write per line and no repetition of short ones, as over the buffer stream. The
      length returned tells whether the stream took everything. */
  method WriteHeaders(strm: OutStream, headers: seq<Header>) returns (writeLen: int)
    modifies strm
    ensures strm.fullWrites && !strm.mayFail ==>
              strm.written == old(strm.written) + HeaderText(headers) && writeLen == |HeaderText(headers)|
    ensures writeLen >= 0 ==>
              |strm.written| == |old(strm.written)| + writeLen && writeLen <= |HeaderText(headers)|
              && (writeLen == |HeaderText(headers)| <==> strm.written == old(strm.written) + HeaderText(headers))
  {
    writeLen := 0;
    ghost var rest, out := FieldLines(headers, 0), "";
    for n := 0 to |headers|
      invariant rest == FieldLines(headers, n) && out + rest == FieldLines(headers, 0)
      invariant writeLen >= 0 && |strm.written| == |old(strm.written)| + writeLen
      invariant writeLen <= |out| && (writeLen == |out| ==> strm.written == old(strm.written) + out)
      invariant strm.fullWrites && !strm.mayFail ==> writeLen == |out|
    {
      var line := FieldLine(headers[n]);
      var len := strm.Write(line);
      if len < 0 { return len; }
      writeLen := writeLen + len;
      Append3(old(strm.written), out, line);
      rest := FieldLines(headers, n + 1);
      Append3(out, line, rest);
      assert len == |line| ==> line[..len] == line;
      out := out + line;
    }
    var len := strm.Write(CRLF);
    if len < 0 { return len; }
    assert len == 2 ==> CRLF[..len] == CRLF;
    Append3(old(strm.written), out, CRLF);
    writeLen := writeLen + len;
  }

  // ------------------------------------------------------------------- reading

  /** What a line means inside a block. A line without CRLF is skipped. */
  datatype BlockLine = Skipped | End | Bad | Field(header: Header)

  function Classified(line: string): BlockLine {
    var n := |line|;
    if n < 2 || line[n - 2..] != CRLF then Skipped
    else if n == 2 then End
    else if n > HEADER_MAX_LENGTH then Bad
    else match ParsedHeader(line[..n - 2])
      case None => Bad
      case Some(h) => Field(h)
  }

  method Classify(line: string) returns (r: BlockLine)
    ensures r == Classified(line)
  {
    var n := |line|;
    var ends := n >= 2 && line[n - 2] == '\r' && line[n - 1] == '\n';
    assert n >= 2 ==> line[n - 2..] == [line[n - 2], line[n - 1]];
    if !ends { return Skipped; }
    if n == 2 { return End; }
    if n > HEADER_MAX_LENGTH { return Bad; }
    var h := ParseHeader(line[..n - 2]);
    if h.None? { return Bad; }
    r := Field(h.value);
  }

  datatype HeadersRead = HeadersRead(ok: bool, headers: seq<Header>, rest: string)

  /** The header block at the start of `s`, added to the headers read before. */
  function ReadBlock(s: string, headers: seq<Header>): (r: HeadersRead)
    decreases |s|
  {
    var (ok, n) := LineAt(s);
    var rest := s[n..];
    if !ok then HeadersRead(false, headers, rest)
    else match Classified(s[..n])
      case Skipped => ReadBlock(rest, headers)
      case End => HeadersRead(true, headers, rest)
      case Bad => HeadersRead(false, headers, rest)
      case Field(h) => ReadBlock(rest, headers + [h])
  }

  method ReadHeaders(strm: SocketStream, headers0: seq<Header>) returns (ok: bool, headers: seq<Header>)
    requires strm.Valid()
    modifies strm, strm.readBuff
    ensures strm.Valid()
    ensures ok || !strm.mayFail ==>
              HeadersRead(ok, headers, strm.Pending()) == ReadBlock(old(strm.Pending()), headers0)
  {
    hide LineAt, Classified;
    headers := headers0;
    var reader := new LineReader(strm, 2048);
    ghost var s := strm.Pending();
    while true
      invariant reader.Valid() && fresh(reader) && fresh(reader.fixedBuffer) && reader.strm == strm
      invariant ReadBlock(strm.Pending(), headers) == ReadBlock(s, headers0)
      decreases |strm.Pending()|
    {
      ghost var p := strm.Pending();
      ok := reader.GetLine();
      var line := reader.Ptr();
      assert p[..|line|] == line && p[|line|..] == strm.Pending();
      if !ok { return; }
      var kind := Classify(line);
      if kind.End? { return; }
      if kind.Bad? { return false, headers; }
      if kind.Field? { headers := headers + [kind.header]; }
    }
  }

  // --------------------------------------------------------- reading what was written

  /** A field the reader takes: legal, and short enough with its separators. */
  predicate LegalField(h: Header) {
    IsFieldName(h.0) && IsFieldValue(h.1) && |h.0| + |h.1| + 4 <= HEADER_MAX_LENGTH
  }

  function Decoded(h: Header): Header {
    (h.0, if KeepsEscapes(h.0) then h.1 else UrlDecoded(h.1, false))
  }

  function DecodedFrom(headers: seq<Header>, n: nat): seq<Header>
    requires n <= |headers|
    decreases |headers| - n
  {
    if n == |headers| then [] else [Decoded(headers[n])] + DecodedFrom(headers, n + 1)
  }

  lemma FieldLineClean(h: Header)
    requires LegalField(h)
    ensures '\r' !in h.0 + ": " + h.1
  {
    assert '\r' !in h.0 && '\r' !in h.1;
  }

  lemma {:induction false} ClassifiedField(text: string, h: Header)
    requires text != "" && |text| + 2 <= HEADER_MAX_LENGTH && ParsedHeader(text) == Some(h)
    ensures Classified(text + CRLF) == Field(h)
  {
    hide ParsedHeader;
    var line := text + CRLF;
    assert line[|text|..] == CRLF && line[..|text|] == text;
  }

  /** One written field in front of `rest`. */
  lemma {:induction false} ReadField(h: Header, rest: string, before: seq<Header>)
    requires LegalField(h)
    ensures ReadBlock(FieldLine(h) + rest, before) == ReadBlock(rest, before + [Decoded(h)])
  {
    hide KeepsEscapes, UrlDecoded, ParsedHeader, IsFieldName, IsFieldValue, LineAt, Classified;
    var text := h.0 + ": " + h.1;
    FieldLineClean(h);
    LineOf(text, rest);
    ParsedHeaderOf(h.0, h.1);
    ClassifiedField(text, Decoded(h));
  }

  lemma ReadBlank(rest: string, before: seq<Header>)
    ensures ReadBlock(CRLF + rest, before) == HeadersRead(true, before, rest)
  {
    assert "" + CRLF == CRLF;
    LineOf("", rest);
    assert CRLF[0..] == CRLF;
  }

  lemma {:induction false} ReadFields(headers: seq<Header>, n: nat, rest: string, before: seq<Header>)
    requires n <= |headers| && forall i :: 0 <= i < |headers| ==> LegalField(headers[i])
    ensures ReadBlock(FieldLines(headers, n) + (CRLF + rest), before) ==
            HeadersRead(true, before + DecodedFrom(headers, n), rest)
    decreases |headers| - n
  {
    hide ReadBlock, LegalField, Decoded, FieldLine;
    if n == |headers| {
      assert "" + (CRLF + rest) == CRLF + rest;
      ReadBlank(rest, before);
      assert before + [] == before;
    } else {
      var more := FieldLines(headers, n + 1) + (CRLF + rest);
      Append3(FieldLine(headers[n]), FieldLines(headers, n + 1), CRLF + rest);
      ReadField(headers[n], more, before);
      ReadFields(headers, n + 1, rest, before + [Decoded(headers[n])]);
      Append3(before, [Decoded(headers[n])], DecodedFrom(headers, n + 1));
    }
  }

  /** A value the reader hands on as it was written. */
  predicate Unescaped(h: Header) {
    KeepsEscapes(h.0) || forall j :: 0 <= j < |h.1| ==> EscapeAt(h.1, j).None?
  }

  lemma {:induction false} DecodedAll(headers: seq<Header>, n: nat)
    requires n <= |headers|
    ensures |DecodedFrom(headers, n)| == |headers| - n
    ensures DecodedFrom(headers, n) == headers[n..] <==> forall i :: n <= i < |headers| ==> Unescaped(headers[i])
    decreases |headers| - n
  {
    hide EscapeAt, KeepsEscapes, UrlDecoded;
    if n < |headers| {
      DecodedAll(headers, n + 1);
      DecodeIdentity(headers[n].1);
      assert Decoded(headers[n]) == headers[n] <==> Unescaped(headers[n]);
      var tail := DecodedFrom(headers, n + 1);
      assert headers[n..] == [headers[n]] + headers[n + 1..];
      assert ([Decoded(headers[n])] + tail)[1..] == tail && ([headers[n]] + headers[n + 1..])[1..] == headers[n + 1..];
    }
  }

  /** The block is consumed exactly, and the headers come back unchanged exactly when no
      value holds a valid percent escape outside Location and Referer. */
  lemma {:induction false} HeaderRoundTrip(headers: seq<Header>, rest: string)
    requires forall i :: 0 <= i < |headers| ==> LegalField(headers[i])
    ensures var r := ReadBlock(HeaderText(headers) + rest, []);
            r.ok && r.rest == rest &&
            (r.headers == headers <==> forall i :: 0 <= i < |headers| ==> Unescaped(headers[i]))
  {
    hide ReadBlock, LegalField, Unescaped, FieldLines;
    Append3(FieldLines(headers, 0), CRLF, rest);
    ReadFields(headers, 0, rest, []);
    DecodedAll(headers, 0);
    assert headers[0..] == headers;
    assert [] + DecodedFrom(headers, 0) == DecodedFrom(headers, 0);
  }
}
