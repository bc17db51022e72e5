/** Which beginnings of a chunked body the reader takes for a whole one. */
module ChunkedPrefixes {
  import opened Bytes
  import opened Fields
  import opened Lines
  import opened HeaderBlocks
  import opened ChunkSizes
  import opened Chunked
  import opened ChunkedReader
  import opened ChunkedRoundTrip

  // ------------------------------------------------------------- beginnings of lines

  /** A text without a whole CRLF is its own last line. */
  lemma OnlyLine(s: string)
    requires s != "" && |s| < MAX_LINE_LENGTH && forall j: nat :: !OccursAt(s, CRLF, j)
    ensures LineThen(s) == Some((s, ""))
  {
    FindNone(s, CRLF);
    assert s[..|s|] == s && s[|s|..] == "";
  }

  lemma NoLine()
    ensures LineThen("") == None && LineAt("").1 == 0
  {
    assert Find("", CRLF) == 0;
  }

  /** Every beginning of a line that lacks at least its last byte. */
  lemma BeginningOfLine(text: string, m: nat)
    requires '\r' !in text && 0 < m < |text| + 2 && |text| + 2 <= MAX_LINE_LENGTH
    ensures var s := (text + CRLF)[..m]; LineThen(s) == Some((s, "")) && CStr(s) != CRLF
  {
    var s := (text + CRLF)[..m];
    forall j: nat ensures !OccursAt(s, CRLF, j) {
      if j + 2 <= |s| { assert s[j..j + 2][0] == s[j] == text[j]; }
    }
    OnlyLine(s);
    if s[0] == '\r' { assert text == "" && s == "\r"; }
  }

  // ------------------------------------------------------------ beginnings of chunks

  lemma {:induction false} FirstDigit(n: nat)
    requires n > 0
    ensures HexDigit(Hex(n)[0]).Some? && HexDigit(Hex(n)[0]).value > 0
  {
    if n >= 16 { FirstDigit(n / 16); } else { HexCharValue(n); }
  }

  lemma {:induction false} DigitsGrow(s: string, i: nat, acc: nat)
    requires i <= |s|
    ensures DigitsValue(s, i, acc) >= acc
    decreases |s| - i
  {
    if i < |s| && HexDigit(s[i]).Some? { DigitsGrow(s, i + 1, acc * 16 + HexDigit(s[i]).value); }
  }

  /** A line that begins with a digit other than zero announces at least one byte. */
  lemma {:induction false} PositiveSize(s: string)
    requires s != "" && HexDigit(s[0]).Some? && HexDigit(s[0]).value > 0
    ensures var size := StrToUl16(CStr(s)); size.Some? && size.value > 0
  {
    var t := CStr(s);
    assert t != "" && t[0] == s[0];
    DigitsGrow(t, 1, HexDigit(t[0]).value);
    assert DigitsValue(t, 0, 0) == DigitsValue(t, 1, HexDigit(t[0]).value);
  }

  lemma EndOfData(end: string)
    requires end == "\r"
    ensures LineThen(end) == Some((end, "")) && CStr(end) != CRLF
  {
    assert ("" + CRLF)[..1] == end;
    BeginningOfLine("", 1);
  }

  /** A chunk that lacks at least its last byte is refused. */
  lemma {:induction false} PartOfChunk(data: string, m: nat, payload: string, headers: seq<Header>)
    requires 0 < |data| < ULONG_MAX && m < |Chunk(data)|
    ensures !ChunksAt(Chunk(data)[..m], payload, headers).ok
  {
    hide Hex, LineThen, StrToUl16, CStr, HexDigit;
    var h, s := Hex(|data|), Chunk(data)[..m];
    SizeRead(|data|);
    if m == 0 {
      assert s == "";
      NoLine();
    } else if m < |h| + 2 {
      assert s == (h + CRLF)[..m];
      BeginningOfLine(h, m);
      FirstDigit(|data|);
      PositiveSize(s);
    } else {
      var rest := (data + CRLF)[..m - |h| - 2];
      assert s == h + CRLF + rest;
      LineThenOf(h, rest);
      if |rest| >= |data| {
        var end := CRLF[..|rest| - |data|];
        assert rest[|data|..] == end;
        if end == "" { NoLine(); } else { EndOfData(end); }
      }
    }
  }

  // ---------------------------------------------------------- beginnings of trailers

  lemma FieldFits(h: Header)
    requires LegalField(h)
    ensures '\r' !in h.0 + ": " + h.1 && |h.0 + ": " + h.1| + 2 <= MAX_LINE_LENGTH
  {
    FieldLineClean(h);
  }

  /** A trailer section that has begun, but lacks at least its last byte. */
  lemma {:induction false} PartOfTrailer(fields: seq<Header>, n: nat, m: nat, payload: string, before: seq<Header>)
    requires n <= |fields| && forall j :: 0 <= j < |fields| ==> LegalField(fields[j])
    requires 0 < m < |FieldLines(fields, n) + CRLF|
    ensures var next := LineThen((FieldLines(fields, n) + CRLF)[..m]);
            next.Some? && !Trailers(next.value.0, next.value.1, payload, before).ok
    decreases |fields| - n
  {
    hide LineThen, CStr, TrailerAdded, LegalField, Decoded;
    NoLine();
    if n == |fields| {
      assert (FieldLines(fields, n) + CRLF)[..m] == "\r";
      EndOfData("\r");
    } else {
      var text, more := fields[n].0 + ": " + fields[n].1, FieldLines(fields, n + 1) + CRLF;
      var line := FieldLine(fields[n]);
      FieldFits(fields[n]);
      Append3(line, FieldLines(fields, n + 1), CRLF);
      assert line == text + CRLF;
      if m < |line| {
        assert (line + more)[..m] == (text + CRLF)[..m];
        BeginningOfLine(text, m);
      } else {
        var part := more[..m - |line|];
        assert (line + more)[..m] == line + part;
        FieldIsLine(fields[n], part, payload, before);
        if part != "" { PartOfTrailer(fields, n + 1, m - |line|, payload, before + [Decoded(fields[n])]); }
      }
    }
  }

  lemma ZeroBeginning(s: string)
    requires s == "0" || s == "0\r"
    ensures StrToUl16(CStr(s)) == Some(0)
  {
    assert CStr(s) == s;
    assert DigitsValue(s, 0, 0) == DigitsValue(s, 1, 0) == 0;
  }

  /** Nothing, or a part of the last chunk's line, or a part of what follows it. */
  lemma {:induction false} PartOfEnd(fields: seq<Header>, m: nat, payload: string)
    requires forall j :: 0 <= j < |fields| ==> LegalField(fields[j])
    requires m < |LAST_CHUNK + HeaderText(fields)|
    ensures var r := ChunksAt((LAST_CHUNK + HeaderText(fields))[..m], payload, []);
            if 0 < m <= 3 then r == ChunkedRead(true, payload, [], "") else !r.ok
  {
    hide LineThen, StrToUl16, CStr, Trailers, LegalField, FieldLines;
    var s := (LAST_CHUNK + HeaderText(fields))[..m];
    NoLine();
    if m == 0 {
      assert s == "";
    } else if m < 3 {
      assert s == ("0" + CRLF)[..m];
      BeginningOfLine("0", m);
      ZeroBeginning(s);
    } else {
      var part := HeaderText(fields)[..m - 3];
      assert s == "0" + CRLF + part;
      LineThenOf("0", part);
      assert Hex(0) == "0";
      SizeRead(0);
      if m > 3 { PartOfTrailer(fields, 0, m - 3, payload, []); }
    }
  }

  // ------------------------------------------------------------------- whole bodies

  /** The bytes before the operation that ends the body. */
  function BeforeEnd(ops: seq<SinkOp>, n: nat): nat
    requires n <= |ops|
    decreases |ops| - n
  {
    if n < |ops| && ops[n].Write? then |OpText(ops[n])| + BeforeEnd(ops, n + 1) else 0
  }

  lemma WriteText(data: string)
    ensures OpText(Write(data)) == if data == "" then "" else Chunk(data)
  {
  }

  lemma {:induction false} PrefixFrom(ops: seq<SinkOp>, n: nat, m: nat, payload: string)
    requires n <= |ops| && Sendable(ops) && FirstDone(ops, n) < |ops|
    requires OpsText(ops, FirstDone(ops, n) + 1) == "" && m < |OpsText(ops, n)|
    ensures var r, c := ChunksAt(OpsText(ops, n)[..m], payload, []), BeforeEnd(ops, n);
            if c < m <= c + 3 then r == ChunkedRead(true, payload + Written(ops, n, FirstDone(ops, n)), [], "")
            else !r.ok
    decreases |ops| - n
  {
    hide ChunksAt, OpText, HeaderText, LegalField;
    var text, more := OpText(ops[n]), OpsText(ops, n + 1);
    if ops[n].Write? {
      var data := ops[n].data;
      if m < |text| {
        assert (text + more)[..m] == text[..m];
        assert data != "" && text == Chunk(data) by { WriteText(data); }
        PartOfChunk(data, m, payload, []);
      } else {
        assert (text + more)[..m] == text + more[..m - |text|];
        WriteRead(data, more[..m - |text|], payload);
        PrefixFrom(ops, n + 1, m - |text|, payload + data);
        Append3(payload, data, Written(ops, n + 1, FirstDone(ops, n + 1)));
      }
    } else {
      DoneText(ops[n]);
      assert text + "" == text && payload + "" == payload;
      PartOfEnd(TrailerOf(ops[n]), m, payload);
    }
  }

  /** The beginnings of a finished body that are read as whole ones: the body itself, and those
      that end in or right behind the line of the last chunk. These give the whole payload,
      no trailer, and leave nothing; a trailer section that has begun must be complete. */
  lemma {:induction false} PrefixRead(ops: seq<SinkOp>, m: nat)
    requires Sendable(ops) && Terminated(ops) && m <= |OpsText(ops, 0)|
    ensures var r, c := ReadChunked(OpsText(ops, 0)[..m], []), BeforeEnd(ops, 0);
            (r.ok <==> c < m <= c + 3 || m == |OpsText(ops, 0)|)
            && (r.ok ==> r.payload == Written(ops, 0, |ops|) && r.rest == ""
                         && (m < |OpsText(ops, 0)| ==> r.headers == []))
  {
    hide ChunksAt, Chunks, OpText, Sendable;
    var s, k := OpsText(ops, 0), FirstDone(ops, 0);
    ReadIsChunksAt(s[..m]);
    SilentTail(ops, k + 1);
    PayloadUpToDone(ops, k);
    assert "" + Written(ops, 0, k) == Written(ops, 0, k);
    if m == |s| {
      assert s[..m] == s && s + "" == s;
      ChunkedRoundTrip.ChunkedRoundTrip(ops, "");
    } else {
      PrefixFrom(ops, 0, m, "");
    }
  }
}
