/** Reading a chunked body. */
module ChunkedReader {
  import opened Bytes
  import opened Fields
  import opened Streams
  import opened Lines
  import opened ChunkSizes

  datatype ChunkedRead = ChunkedRead(ok: bool, payload: string, headers: seq<Header>, rest: string)

  const REFUSED := ChunkedRead(false, "", [], "")

  /** A trailer line that does not parse is ignored; so is one cut short by the end. */
  function TrailerAdded(line: string, headers: seq<Header>): seq<Header> {
    match ParsedHeader(if |line| >= 2 then line[..|line| - 2] else "")
    case None => headers
    case Some(h) => headers + [h]
  }

  /** A line at the front of `s` and what is behind it. */
  function LineThen(s: string): (r: Option<(string, string)>)
    ensures r.Some? ==> |r.value.1| < |s| && s == r.value.0 + r.value.1
  {
    var (ok, n) := LineAt(s);
    if ok then Some((s[..n], s[n..])) else None
  }

  /** The trailer section, with `line` just read and `s` behind it. */
  function Trailers(line: string, s: string, payload: string, headers: seq<Header>): ChunkedRead
    decreases |s|
  {
    if CStr(line) == CRLF then ChunkedRead(true, payload, headers, s)
    else if |line| > HEADER_MAX_LENGTH then REFUSED
    else match LineThen(s)
      case None => REFUSED
      case Some(next) => Trailers(next.0, next.1, payload, TrailerAdded(line, headers))
  }

  /** After the last chunk the final line may be missing altogether. */
  function AfterChunks(s: string, payload: string, headers: seq<Header>): ChunkedRead {
    match LineThen(s)
    case None => ChunkedRead(true, payload, headers, s[LineAt(s).1..])
    case Some(next) => Trailers(next.0, next.1, payload, headers)
  }

  /** The next size line, once a chunk of `size` bytes and its CRLF are taken from `s`. */
  function NextSize(s: string, size: nat): (r: Option<(string, string)>)
    requires size <= |s|
    ensures r.Some? ==> |r.value.1| < |s|
  {
    match LineThen(s[size..])
    case None => None
    case Some(end) => if CStr(end.0) == CRLF then LineThen(end.1) else None
  }

  /** A chunk with its size line `line` just read and `s` behind it. */
  function Chunks(line: string, s: string, payload: string, headers: seq<Header>): ChunkedRead
    decreases |s|
  {
    var size := StrToUl16(CStr(line));
    if size == None || size == Some(ULONG_MAX) then REFUSED
    else if size == Some(0) then AfterChunks(s, payload, headers)
    else if |s| < size.value then REFUSED
    else match NextSize(s, size.value)
      case None => REFUSED
      case Some(next) => Chunks(next.0, next.1, payload + s[..size.value], headers)
  }

  function ReadChunked(s: string, headers: seq<Header>): ChunkedRead {
    match LineThen(s)
    case None => REFUSED
    case Some(next) => Chunks(next.0, next.1, "", headers)
  }

  /** The payload of the chunks alone, whatever comes behind the last one. */
  function ChunksPayload(line: string, s: string, payload: string): Option<string>
    decreases |s|
  {
    var size := StrToUl16(CStr(line));
    if size == None || size == Some(ULONG_MAX) then None
    else if size == Some(0) then Some(payload)
    else if |s| < size.value then None
    else match NextSize(s, size.value)
      case None => None
      case Some(next) => ChunksPayload(next.0, next.1, payload + s[..size.value])
  }

  function PayloadRead(s: string): Option<string> {
    match LineThen(s)
    case None => None
    case Some(next) => ChunksPayload(next.0, next.1, "")
  }

  lemma {:induction false} TrailersKeepPayload(line: string, s: string, payload: string, headers: seq<Header>)
    ensures Trailers(line, s, payload, headers).ok ==> Trailers(line, s, payload, headers).payload == payload
    decreases |s|
  {
    hide LineThen, CStr, TrailerAdded;
    var next := LineThen(s);
    if next.Some? { TrailersKeepPayload(next.value.0, next.value.1, payload, TrailerAdded(line, headers)); }
  }

  lemma {:induction false} AfterKeepsPayload(s: string, payload: string, headers: seq<Header>)
    ensures AfterChunks(s, payload, headers).ok ==> AfterChunks(s, payload, headers).payload == payload
  {
    hide LineAt;
    var next := LineThen(s);
    if next.Some? { TrailersKeepPayload(next.value.0, next.value.1, payload, headers); }
  }

  /** A refused size never counts; an accepted one is part of the payload. */
  lemma {:induction false} PayloadGrows(line: string, s: string, payload: string, headers: seq<Header>)
    ensures var r := Chunks(line, s, payload, headers);
            r.ok ==> StrToUl16(CStr(line)).Some? && |r.payload| >= |payload| + StrToUl16(CStr(line)).value
    decreases |s|
  {
    hide CStr, StrToUl16, AfterChunks, NextSize;
    var size := StrToUl16(CStr(line));
    AfterKeepsPayload(s, payload, headers);
    if size.Some? && size != Some(ULONG_MAX) && size != Some(0) && size.value <= |s| {
      var next := NextSize(s, size.value);
      if next.Some? { PayloadGrows(next.value.0, next.value.1, payload + s[..size.value], headers); }
    }
  }

  /** One line: its text, and the stream behind it. */
  method TakeLine(reader: LineReader) returns (ok: bool, line: string)
    requires reader.Valid()
    modifies reader, reader.fixedBuffer, reader.strm, reader.strm.readBuff
    ensures reader.Valid()
    ensures ok ==> LineThen(old(reader.strm.Pending())) == Some((line, reader.strm.Pending()))
    ensures !reader.strm.mayFail && !ok ==>
              LineThen(old(reader.strm.Pending())) == None
              && reader.strm.Pending() == old(reader.strm.Pending())[LineAt(old(reader.strm.Pending())).1..]
  {
    ghost var s := reader.strm.Pending();
    ok := reader.GetLine();
    line := reader.Ptr();
    assert s[..|line|] == line && s[|line|..] == reader.strm.Pending();
  }

  method ReadTrailers(reader: LineReader, line0: string, headers0: seq<Header>, ghost payload: string)
    returns (ok: bool, headers: seq<Header>)
    requires reader.Valid()
    modifies reader, reader.fixedBuffer, reader.strm, reader.strm.readBuff
    ensures reader.Valid()
    ensures var r := Trailers(line0, old(reader.strm.Pending()), payload, headers0);
            (ok ==> r == ChunkedRead(true, payload, headers, reader.strm.Pending()))
            && (!reader.strm.mayFail ==> ok == r.ok)
  {
    hide LineAt, LineThen, CStr, TrailerAdded;
    var line := line0;
    headers := headers0;
    while CStr(line) != CRLF
      invariant reader.Valid()
      invariant Trailers(line, reader.strm.Pending(), payload, headers) ==
                Trailers(line0, old(reader.strm.Pending()), payload, headers0)
      decreases |reader.strm.Pending()|
    {
      if |line| > HEADER_MAX_LENGTH { return false, headers; }
      headers := AddTrailer(line, headers);
      ok, line := TakeLine(reader);
      if !ok { return; }
    }
    ok := true;
  }

  method AddTrailer(line: string, headers: seq<Header>) returns (r: seq<Header>)
    ensures r == TrailerAdded(line, headers)
  {
    var h := ParseHeader(if |line| >= 2 then line[..|line| - 2] else "");
    r := if h.Some? then headers + [h.value] else headers;
  }

  /** The chunk of `size` bytes at the front of the stream, its CRLF and the next size line. */
  method TakeChunk(reader: LineReader, size: nat, out: BodyReceiver) returns (ok: bool, line: string)
    requires reader.Valid() && |out.received| <= out.limit
    modifies reader, reader.fixedBuffer, reader.strm, reader.strm.readBuff, out
    ensures reader.Valid() && |out.received| <= out.limit
    ensures var s := old(reader.strm.Pending());
            ok ==> size <= |s| && out.received == old(out.received) + s[..size]
                   && NextSize(s, size) == Some((line, reader.strm.Pending()))
    ensures var s := old(reader.strm.Pending());
            (!reader.strm.mayFail && !ok) ==>
              size > |s| || |old(out.received)| + size > out.limit || NextSize(s, size) == None
  {
    hide LineAt, LineThen, CStr;
    line := "";
    ok := ReadContentWithLength(reader.strm, size, out);
    if !ok { return; }
    ok, line := TakeLine(reader);
    if !ok { return; }
    if CStr(line) != CRLF { return false, line; }
    ok, line := TakeLine(reader);
  }

  lemma StrToUlRange(s: string)
    ensures StrToUl16(s).Some? ==> StrToUl16(s).value <= ULONG_MAX
  {
  }

  /** When the stream does not fail, the reader accepts exactly the texts `ReadChunked`
      accepts whose payload fits the receiver, whatever the sizes of the reads are. When it
      may fail, an accepted body still has its whole payload, and the trailer section is read
      to its end too unless the stream failed at its first line. */
  method ReadContentChunked(strm: SocketStream, headers0: seq<Header>, out: BodyReceiver)
    returns (ok: bool, headers: seq<Header>)
    requires strm.Valid() && out.received == ""
    modifies strm, strm.readBuff, out
    ensures strm.Valid()
    ensures !strm.mayFail ==>
              var r := ReadChunked(old(strm.Pending()), headers0);
              ok == (r.ok && |r.payload| <= out.limit)
              && (ok ==> r == ChunkedRead(true, out.received, headers, strm.Pending()))
    ensures ok ==> PayloadRead(old(strm.Pending())) == Some(out.received)
    ensures ok ==>
              ReadChunked(old(strm.Pending()), headers0) == ChunkedRead(true, out.received, headers, strm.Pending())
              || (strm.mayFail && headers == headers0)
  {
    hide LineAt, LineThen, CStr, StrToUl16, NextSize, Trailers;
    headers := headers0;
    var reader := new LineReader(strm, 16);
    ghost var r, payload := ReadChunked(strm.Pending(), headers0), PayloadRead(strm.Pending());
    var line;
    ok, line := TakeLine(reader);
    if !ok { return; }
    while true
      invariant reader.Valid() && fresh(reader) && fresh(reader.fixedBuffer) && reader.strm == strm
      invariant |out.received| <= out.limit
      invariant r == Chunks(line, strm.Pending(), out.received, headers0)
      invariant payload == ChunksPayload(line, strm.Pending(), out.received)
      decreases |strm.Pending()|
    {
      PayloadGrows(line, strm.Pending(), out.received, headers0);
      StrToUlRange(CStr(line));
      var size := StrToUl16(CStr(line));
      if size == None || size == Some(ULONG_MAX) { return false, headers; }
      if size == Some(0) { break; }
      ok, line := TakeChunk(reader, size.value, out);
      if !ok { return; }
    }
    AfterKeepsPayload(strm.Pending(), out.received, headers0);
    ok, line := TakeLine(reader);
    if !ok { return true, headers; }
    ok, headers := ReadTrailers(reader, line, headers0, out.received);
  }
}
