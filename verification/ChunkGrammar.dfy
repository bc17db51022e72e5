/** Chunked bodies as any peer may write them: sizes in either letter case, with leading zeros
    or a prefix, with extensions, and trailer lines of all kinds; and those that are refused. */
module ChunkGrammar {
  import opened Bytes
  import opened Fields
  import opened HeaderGrammar
  import opened ChunkSizes
  import opened ChunkedReader
  import opened ChunkedRoundTrip

  // ------------------------------------------------------------------------ sizes

  predicate HexDigits(d: string) { forall i :: 0 <= i < |d| ==> HexDigit(d[i]).Some? }

  /** The number a string of hexadecimal digits stands for. */
  function HexNumber(d: string): nat
    requires HexDigits(d)
  {
    if d == "" then 0 else HexNumber(d[..|d| - 1]) * 16 + HexDigit(d[|d| - 1]).value
  }

  /** A size line: white space, a sign, the mark of the base, digits, and an extension. */
  datatype SizeText = SizeText(spaces: string, sign: string, mark: string, digits: string, ext: string)

  /** The number with its `tail` behind the digits. */
  function Spelled(z: SizeText, tail: string): string { z.spaces + (z.sign + (z.mark + (z.digits + tail))) }

  function SizeLine(z: SizeText): string { Spelled(z, z.ext) }

  predicate LegalSize(z: SizeText) {
    && (forall i :: 0 <= i < |z.spaces| ==> IsSpace(z.spaces[i]) && z.spaces[i] != '\r')
    && z.sign in {"", "+", "-"} && z.mark in {"", "0x", "0X"} && z.digits != "" && HexDigits(z.digits)
    && '\r' !in z.ext && (z.ext != "" ==> HexDigit(z.ext[0]).None? && z.ext[0] != 'x' && z.ext[0] != 'X')
    && |SizeLine(z)| + 2 <= 32768
  }

  /** What the C library makes of it: a negative number is the complement, and one that is too
      large the largest there is. */
  function SizeOf(z: SizeText): nat
    requires LegalSize(z)
  {
    var v := HexNumber(z.digits);
    if v > 0xFFFF_FFFF_FFFF_FFFF then 0xFFFF_FFFF_FFFF_FFFF
    else if z.sign == "-" && v > 0 then 0x1_0000_0000_0000_0000 - v
    else v
  }

  lemma {:induction false} DigitsRead(pre: string, d: string, tail: string, i: nat)
    requires HexDigits(d) && i <= |d| && (tail != "" ==> HexDigit(tail[0]).None?)
    ensures DigitsValue(pre + d + tail, |pre| + i, HexNumber(d[..i])) == HexNumber(d)
    decreases |d| - i
  {
    hide HexDigit;
    var s := pre + d + tail;
    if i == |d| {
      assert d[..i] == d;
      assert |pre| + i < |s| ==> s[|pre| + i] == tail[0];
    } else {
      assert s[|pre| + i] == d[i];
      assert d[..i + 1][..i] == d[..i];
      DigitsRead(pre, d, tail, i + 1);
    }
  }

  lemma {:induction false} SpacesSkipped(spaces: string, rest: string, i: nat)
    requires i <= |spaces| && forall k :: 0 <= k < |spaces| ==> IsSpace(spaces[k])
    requires rest != "" && !IsSpace(rest[0])
    ensures SkipSpaces(spaces + rest, i) == |spaces|
    decreases |spaces| - i
  {
    var s := spaces + rest;
    assert i < |spaces| ==> s[i] == spaces[i];
    assert s[|spaces|] == rest[0];
    if i < |spaces| { SpacesSkipped(spaces, rest, i + 1); }
  }

  lemma HexIsNoSpace(c: char)
    requires HexDigit(c).Some?
    ensures !IsSpace(c) && c != '+' && c != '-' && c != '\0' && c != '\r' && c != 'x' && c != 'X'
  {
  }

  lemma Behind(s: string, i: nat, a: string, b: string)
    requires i <= |s| && s[i..] == a + b
    ensures i + |a| <= |s| && s[i + |a|..] == b
  {
    assert s[i + |a|..] == s[i..][|a|..] == b;
  }

  lemma FrontOf(s: string, i: nat, a: string, b: string)
    requires i <= |s| && s[i..] == a + b
    ensures forall k :: 0 <= k < |a| ==> i + k < |s| && s[i + k] == a[k]
  {
    forall k | 0 <= k < |a| ensures i + k < |s| && s[i + k] == a[k] { assert s[i..][k] == (a + b)[k]; }
  }

  lemma SlicesOf(s: string, a: string, b: string, c: string, d: string)
    requires s == a + (b + (c + d))
    ensures |a| + |b| + |c| <= |s|
    ensures s[|a|..] == b + (c + d) && s[|a| + |b|..] == c + d && s[|a| + |b| + |c|..] == d
  {
    assert s[|a|..] == b + (c + d);
    Behind(s, |a|, b, c + d);
    Behind(s, |a| + |b|, c, d);
  }

  lemma FirstOf(s: string, i: nat, a: string, b: string)
    requires i <= |s| && s[i..] == a + b
    ensures a != "" ==> i < |s| && s[i] == a[0] && (|a| > 1 ==> s[i + 1] == a[1])
  {
    if a != "" {
      FrontOf(s, i, a, b);
      assert s[i + 0] == a[0];
    }
  }

  /** The sign is a character, and the mark two, or nothing. */
  lemma SignAndMark(z: SizeText)
    requires LegalSize(z)
    ensures z.sign == "" || (|z.sign| == 1 && (z.sign[0] == '+' || z.sign[0] == '-'))
    ensures z.mark == "" || (|z.mark| == 2 && z.mark[0] == '0' && (z.mark[1] == 'x' || z.mark[1] == 'X'))
    ensures (z.sign == "-") == (z.sign != "" && z.sign[0] == '-')
    ensures z.digits != "" && HexDigits(z.digits) && forall k :: 0 <= k < |z.spaces| ==> IsSpace(z.spaces[k])
  {
  }

  lemma SecondIsNoMark(d: string, tail: string)
    requires d != "" && HexDigits(d) && (tail != "" ==> tail[0] != 'x' && tail[0] != 'X')
    ensures |d + tail| > 1 ==> (d + tail)[1] != 'x' && (d + tail)[1] != 'X'
  {
    if |d| > 1 { HexIsNoSpace(d[1]); }
  }

  lemma {:induction false} StrToUlAt(s: string, i: nat, j: nat, k: nat)
    requires i == SkipSpaces(s, 0) && i < |s| && j == (if s[i] == '-' || s[i] == '+' then i + 1 else i)
    requires if k == j then !(j + 1 < |s| && s[j] == '0' && (s[j + 1] == 'x' || s[j + 1] == 'X'))
             else k == j + 2 < |s| && s[j] == '0' && (s[j + 1] == 'x' || s[j + 1] == 'X')
    requires k < |s| && HexDigit(s[k]).Some?
    ensures var v := DigitsValue(s, k, 0);
            StrToUl16(s) == Some(if v > ULONG_MAX then ULONG_MAX
                                 else if s[i] == '-' && v > 0 then ULONG_MAX + 1 - v else v)
  {
    hide SkipSpaces, DigitsValue, HexDigit;
  }

  lemma FirstIsDigit(d: string)
    requires d != "" && HexDigits(d)
    ensures HexDigit(d[0]).Some?
  {
  }

  lemma NoNumber()
    ensures HexNumber("") == 0
  {
  }

  lemma {:induction false} DigitsAt(s: string, k: nat, d: string, tail: string)
    requires k <= |s| && s[k..] == d + tail && HexDigits(d) && (tail != "" ==> HexDigit(tail[0]).None?)
    ensures DigitsValue(s, k, 0) == HexNumber(d)
  {
    hide HexDigit, DigitsValue, HexNumber;
    assert s == s[..k] + (d + tail);
    Append3(s[..k], d, tail);
    DigitsRead(s[..k], d, tail, 0);
    assert d[..0] == "";
    assert HexNumber("") == 0 by { NoNumber(); }
  }

  /** What the C library finds in front of the digits. */
  lemma {:induction false} Shape(s: string, spaces: string, sign: string, mark: string, number: string)
    requires s == spaces + (sign + (mark + number)) && number != "" && !IsSpace(number[0])
    requires forall k :: 0 <= k < |spaces| ==> IsSpace(spaces[k])
    requires sign == "" || (|sign| == 1 && (sign[0] == '+' || sign[0] == '-'))
    requires mark == "" || (|mark| == 2 && mark[0] == '0' && (mark[1] == 'x' || mark[1] == 'X'))
    requires number[0] != '+' && number[0] != '-' && (|number| > 1 ==> number[1] != 'x' && number[1] != 'X')
    ensures var i := |spaces|;
            var j, k := i + |sign|, i + |sign| + |mark|;
            k < |s| && s[k..] == number && s[k] == number[0] && SkipSpaces(s, 0) == i
            && j == (if s[i] == '-' || s[i] == '+' then i + 1 else i) && (s[i] == '-' <==> sign != "" && sign[0] == '-')
            && if k == j then !(j + 1 < |s| && s[j] == '0' && (s[j + 1] == 'x' || s[j + 1] == 'X'))
               else k == j + 2 && s[j] == '0' && (s[j + 1] == 'x' || s[j + 1] == 'X')
  {
    hide SkipSpaces;
    var i := |spaces|;
    var j, k := i + |sign|, i + |sign| + |mark|;
    SlicesOf(s, spaces, sign, mark, number);
    FirstOf(s, i, sign, mark + number);
    FirstOf(s, j, mark, number);
    assert number + "" == number;
    FirstOf(s, k, number, "");
    var rest := sign + (mark + number);
    assert rest[0] == s[i] && !IsSpace(rest[0]);
    SpacesSkipped(spaces, rest, 0);
  }

  lemma SpelledIs(z: SizeText, tail: string)
    ensures Spelled(z, tail) == z.spaces + (z.sign + (z.mark + (z.digits + tail)))
  {
  }

  lemma {:induction false} NumberIs(s: string, spaces: string, sign: string, mark: string, d: string, tail: string)
    requires s == spaces + (sign + (mark + (d + tail))) && d != "" && HexDigits(d)
    requires forall k :: 0 <= k < |spaces| ==> IsSpace(spaces[k])
    requires sign == "" || (|sign| == 1 && (sign[0] == '+' || sign[0] == '-'))
    requires mark == "" || (|mark| == 2 && mark[0] == '0' && (mark[1] == 'x' || mark[1] == 'X'))
    requires tail != "" ==> HexDigit(tail[0]).None? && tail[0] != 'x' && tail[0] != 'X'
    ensures var v := HexNumber(d);
            StrToUl16(s) == Some(if v > ULONG_MAX then ULONG_MAX
                                 else if sign != "" && sign[0] == '-' && v > 0 then ULONG_MAX + 1 - v else v)
  {
    hide HexDigit, HexDigits, HexNumber, IsSpace, DigitsValue, SkipSpaces, StrToUl16;
    var number := d + tail;
    var i, j, k := |spaces|, |spaces| + |sign|, |spaces| + |sign| + |mark|;
    assert HexDigit(d[0]).Some? by { FirstIsDigit(d); }
    HexIsNoSpace(d[0]);
    SecondIsNoMark(d, tail);
    Shape(s, spaces, sign, mark, number);
    StrToUlAt(s, i, j, k);
    DigitsAt(s, k, d, tail);
  }

  /** The digits are found behind everything that may stand before them. */
  lemma {:induction false} NumberRead(z: SizeText, tail: string)
    requires LegalSize(z)
    requires tail != "" ==> HexDigit(tail[0]).None? && tail[0] != 'x' && tail[0] != 'X'
    ensures StrToUl16(Spelled(z, tail)) == Some(SizeOf(z))
  {
    SignAndMark(z);
    hide HexDigit, HexDigits, HexNumber, IsSpace, StrToUl16, LegalSize, Spelled;
    SpelledIs(z, tail);
    NumberIs(Spelled(z, tail), z.spaces, z.sign, z.mark, z.digits, tail);
  }

  lemma {:induction false} SizeClean(z: SizeText)
    requires LegalSize(z)
    ensures '\r' !in SizeLine(z) && '\0' !in Spelled(z, "")
  {
    hide HexDigit;
    forall c | c in z.digits ensures c != '\0' && c != '\r' { HexIsNoSpace(c); }
    forall c | c in z.spaces ensures c != '\0' && c != '\r' { }
  }

  lemma SpelledAppend(z: SizeText, a: string, b: string)
    ensures Spelled(z, a) + b == Spelled(z, a + b)
  {
    Append3(z.digits, a, b);
    Append3(z.mark, z.digits + a, b);
    Append3(z.sign, z.mark + (z.digits + a), b);
    Append3(z.spaces, z.sign + (z.mark + (z.digits + a)), b);
  }

  lemma CStrBehind(head: string, tail: string)
    requires '\0' !in head && tail != ""
    ensures exists t: string :: CStr(head + tail) == head + t && (t != "" ==> t[0] == tail[0])
  {
    var s := head + tail;
    var n := IndexOf(s, '\0');
    assert forall i :: 0 <= i < |head| ==> s[i] == head[i];
    assert n >= |head|;
    var t := s[|head|..n];
    assert CStr(s) == head + t;
  }

  lemma ReturnIsNoDigit()
    ensures HexDigit('\r').None?
  {
  }

  /** A size line gives its size, whatever its extension is. */
  lemma {:induction false} SizeLineRead(z: SizeText, rest: string)
    requires LegalSize(z)
    ensures LineThen(SizeLine(z) + CRLF + rest) == Some((SizeLine(z) + CRLF, rest))
    ensures StrToUl16(CStr(SizeLine(z) + CRLF)) == Some(SizeOf(z))
  {
    hide LineThen, StrToUl16, CStr, HexDigit, HexDigits, Spelled, SizeOf;
    SizeClean(z);
    LineThenOf(SizeLine(z), rest);
    var head, tail := Spelled(z, ""), z.ext + CRLF;
    SpelledAppend(z, z.ext, CRLF);
    SpelledAppend(z, "", tail);
    assert "" + tail == tail;
    CStrBehind(head, tail);
    var t: string :| CStr(head + tail) == head + t && (t != "" ==> t[0] == tail[0]);
    SpelledAppend(z, "", t);
    assert "" + t == t;
    assert HexDigit('\r').None? by { ReturnIsNoDigit(); }
    NumberRead(z, t);
  }

  // ----------------------------------------------------------------------- chunks

  datatype WireChunk = WireChunk(size: SizeText, data: string)

  predicate LegalChunk(c: WireChunk) { LegalSize(c.size) && 0 < |c.data| == SizeOf(c.size) < 0xFFFF_FFFF_FFFF_FFFF }

  function ChunkText(c: WireChunk): string { SizeLine(c.size) + CRLF + (c.data + CRLF) }

  function ChunksText(chunks: seq<WireChunk>, n: nat): string
    requires n <= |chunks|
    decreases |chunks| - n
  {
    if n == |chunks| then "" else ChunkText(chunks[n]) + ChunksText(chunks, n + 1)
  }

  function Payload(chunks: seq<WireChunk>, n: nat): string
    requires n <= |chunks|
    decreases |chunks| - n
  {
    if n == |chunks| then "" else chunks[n].data + Payload(chunks, n + 1)
  }

  lemma {:induction false} WireChunkRead(c: WireChunk, more: string, payload: string, headers: seq<Header>)
    requires LegalChunk(c)
    ensures ChunksAt(ChunkText(c) + more, payload, headers) == ChunksAt(more, payload + c.data, headers)
  {
    hide LineThen, StrToUl16, CStr, LegalSize, SizeLine, SizeOf;
    var line, s := SizeLine(c.size) + CRLF, c.data + (CRLF + more);
    Append3(line, c.data + CRLF, more);
    Append3(c.data, CRLF, more);
    SizeLineRead(c.size, s);
    CrlfLine(more);
    assert s[|c.data|..] == CRLF + more && s[..|c.data|] == c.data;
  }

  lemma {:induction false} WireChunksRead(chunks: seq<WireChunk>, n: nat, more: string, payload: string,
                                          headers: seq<Header>)
    requires n <= |chunks| && forall i :: 0 <= i < |chunks| ==> LegalChunk(chunks[i])
    ensures ChunksAt(ChunksText(chunks, n) + more, payload, headers)
            == ChunksAt(more, payload + Payload(chunks, n), headers)
    decreases |chunks| - n
  {
    hide ChunksAt, ChunkText, LegalChunk;
    if n == |chunks| {
      assert "" + more == more && payload + "" == payload;
    } else {
      Append3(ChunkText(chunks[n]), ChunksText(chunks, n + 1), more);
      WireChunkRead(chunks[n], ChunksText(chunks, n + 1) + more, payload, headers);
      WireChunksRead(chunks, n + 1, more, payload + chunks[n].data, headers);
      Append3(payload, chunks[n].data, Payload(chunks, n + 1));
    }
  }

  // --------------------------------------------------------------------- trailers

  /** A trailer line: a field, or a text that is none, which is ignored. */
  datatype TrailerLine = FieldOf(f: WireField) | Noise(text: string)

  function TrailerText(l: TrailerLine): string { match l case FieldOf(f) => WireText(f) case Noise(text) => text }

  predicate LegalTrailer(l: TrailerLine) {
    match l
    case FieldOf(f) => LegalWire(f)
    case Noise(text) => text != "" && '\r' !in text && text[0] != '\0' && |text| + 2 <= 8192
                        && (':' !in text || !IsFieldName(text[..IndexOf(text, ':')]))
  }

  function TrailerLines(lines: seq<TrailerLine>, n: nat): string
    requires n <= |lines|
    decreases |lines| - n
  {
    if n == |lines| then "" else TrailerText(lines[n]) + CRLF + TrailerLines(lines, n + 1)
  }

  function TrailerHeaders(lines: seq<TrailerLine>, n: nat): seq<Header>
    requires n <= |lines|
    decreases |lines| - n
  {
    if n == |lines| then []
    else (if lines[n].FieldOf? then [HeaderOf(lines[n].f)] else []) + TrailerHeaders(lines, n + 1)
  }

  lemma NoBlank(text: string)
    requires text != "" && '\r' !in text && text[0] != '\0'
    ensures CStr(text + CRLF) != CRLF
  {
    assert (text + CRLF)[0] == text[0];
    assert CStr(text + CRLF)[0] == text[0];
  }

  lemma {:induction false} FieldAdded(f: WireField)
    requires LegalWire(f)
    ensures ParsedHeader(WireText(f)) == Some(HeaderOf(f))
  {
    hide ParsedHeader, UrlDecoded, EqualIgnoreCase;
    ParsedPadded(f.key, f.pad, f.value, f.post);
  }

  lemma {:induction false} TrailerLineRead(l: TrailerLine, more: string, before: seq<Header>)
    requires LegalTrailer(l)
    ensures var line := TrailerText(l) + CRLF;
            LineThen(line + more) == Some((line, more)) && CStr(line) != CRLF && |line| <= 8192
            && TrailerAdded(line, before) == before + if l.FieldOf? then [HeaderOf(l.f)] else []
  {
    hide ParsedHeader, UrlDecoded, EqualIgnoreCase, LineThen, IsFieldValue, CStr, HeaderOf;
    var text := TrailerText(l);
    assert text != "" && '\r' !in text && text[0] != '\0' by {
      if l.FieldOf? {
        WireClean(l.f);
        assert text[0] == l.f.key[0] && IsTokenChar(l.f.key[0]);
      }
    }
    LineThenOf(text, more);
    assert (text + CRLF)[..|text + CRLF| - 2] == text;
    NoBlank(text);
    if l.FieldOf? { FieldAdded(l.f); } else { NoField(text); }
  }

  lemma {:induction false} TrailerLinesRead(lines: seq<TrailerLine>, n: nat, rest: string, payload: string,
                                            before: seq<Header>)
    requires n <= |lines| && forall i :: 0 <= i < |lines| ==> LegalTrailer(lines[i])
    ensures var next := LineThen(TrailerLines(lines, n) + (CRLF + rest));
            next.Some? && Trailers(next.value.0, next.value.1, payload, before)
                          == ChunkedRead(true, payload, before + TrailerHeaders(lines, n), rest)
    decreases |lines| - n
  {
    hide LineThen, CStr, TrailerAdded, LegalTrailer, HeaderOf, TrailerText;
    if n == |lines| {
      assert "" + (CRLF + rest) == CRLF + rest && before + [] == before;
      CrlfLine(rest);
    } else {
      var line, more := TrailerText(lines[n]) + CRLF, TrailerLines(lines, n + 1) + (CRLF + rest);
      var own := if lines[n].FieldOf? then [HeaderOf(lines[n].f)] else [];
      Append3(line, TrailerLines(lines, n + 1), CRLF + rest);
      TrailerLineRead(lines[n], more, before);
      TrailerLinesRead(lines, n + 1, rest, payload, before + own);
      Append3(before, own, TrailerHeaders(lines, n + 1));
    }
  }

  /** A body in this grammar gives its payload and the fields of its trailer, and is consumed
      exactly. */
  lemma {:induction false} WireBodyRead(chunks: seq<WireChunk>, last: SizeText, lines: seq<TrailerLine>, rest: string)
    requires (forall i :: 0 <= i < |chunks| ==> LegalChunk(chunks[i])) && LegalSize(last) && SizeOf(last) == 0
    requires forall i :: 0 <= i < |lines| ==> LegalTrailer(lines[i])
    ensures ReadChunked(ChunksText(chunks, 0) + (SizeLine(last) + CRLF + (TrailerLines(lines, 0) + (CRLF + rest))),
                        [])
            == ChunkedRead(true, Payload(chunks, 0), TrailerHeaders(lines, 0), rest)
  {
    hide LineThen, StrToUl16, CStr, Trailers, LegalTrailer, LegalChunk, LegalSize, SizeOf, SizeLine;
    var s := TrailerLines(lines, 0) + (CRLF + rest);
    var end := SizeLine(last) + CRLF + s;
    ReadIsChunksAt(ChunksText(chunks, 0) + end);
    WireChunksRead(chunks, 0, end, "", []);
    assert "" + Payload(chunks, 0) == Payload(chunks, 0);
    SizeLineRead(last, s);
    TrailerLinesRead(lines, 0, rest, Payload(chunks, 0), []);
    assert [] + TrailerHeaders(lines, 0) == TrailerHeaders(lines, 0);
  }

  // ---------------------------------------------------------------------- refusals

  /** What can be wrong behind legal chunks: no size, one that is too large, a chunk that is
      not followed by its line break, and a trailer line that is too long. */
  datatype Wrong =
    | NoSize(text: string)
    | TooLarge(size: SizeText)
    | NotEnded(chunk: WireChunk, text: string)
    | LongTrailer(last: SizeText, lines: seq<TrailerLine>, text: string)

  predicate LegalWrong(w: Wrong) {
    match w
    case NoSize(text) =>
      '\r' !in text && |text| + 2 <= 32768
      && (text != "" ==> !IsSpace(text[0]) && text[0] != '+' && text[0] != '-' && HexDigit(text[0]).None?)
    case TooLarge(size) => LegalSize(size) && SizeOf(size) == 0xFFFF_FFFF_FFFF_FFFF
    case NotEnded(chunk, text) => LegalChunk(chunk) && text != "" && '\r' !in text && text[0] != '\0'
                                  && |text| + 2 <= 32768
    case LongTrailer(last, lines, text) =>
      LegalSize(last) && SizeOf(last) == 0 && (forall i :: 0 <= i < |lines| ==> LegalTrailer(lines[i]))
      && '\r' !in text && 8192 < |text| + 2 <= 32768 && text[0] != '\0'
  }

  function WrongText(w: Wrong): string {
    match w
    case NoSize(text) => text + CRLF
    case TooLarge(size) => SizeLine(size) + CRLF
    case NotEnded(chunk, text) => SizeLine(chunk.size) + CRLF + (chunk.data + (text + CRLF))
    case LongTrailer(last, lines, text) => SizeLine(last) + CRLF + (TrailerLines(lines, 0) + (text + CRLF))
  }

  lemma NotZero(c: char)
    requires HexDigit(c).None?
    ensures c != '0'
  {
  }

  lemma {:induction false} NoSizeRead(text: string)
    requires LegalWrong(NoSize(text))
    ensures StrToUl16(CStr(text + CRLF)) == None
  {
    hide HexDigit, DigitsValue;
    var s := CStr(text + CRLF);
    if text == "" {
      assert s == CRLF;
      assert SkipSpaces(CRLF, 2) == 2 && SkipSpaces(CRLF, 1) == 2 && SkipSpaces(CRLF, 0) == 2;
    } else if text[0] != '\0' {
      assert s[0] == text[0];
      NotZero(text[0]);
    } else {
      assert s == "";
    }
  }

  lemma {:induction false} LongTrailerRead(lines: seq<TrailerLine>, n: nat, text: string, rest: string, payload: string,
                                           before: seq<Header>)
    requires n <= |lines| && forall i :: 0 <= i < |lines| ==> LegalTrailer(lines[i])
    requires '\r' !in text && 8192 < |text| + 2 <= 32768 && text[0] != '\0'
    ensures var next := LineThen(TrailerLines(lines, n) + (text + CRLF + rest));
            next.Some? && !Trailers(next.value.0, next.value.1, payload, before).ok
    decreases |lines| - n
  {
    hide LineThen, CStr, TrailerAdded, LegalTrailer, HeaderOf, TrailerText;
    if n == |lines| {
      assert "" + (text + CRLF + rest) == text + CRLF + rest;
      LineThenOf(text, rest);
      NoBlank(text);
    } else {
      var line, more := TrailerText(lines[n]) + CRLF, TrailerLines(lines, n + 1) + (text + CRLF + rest);
      Append3(line, TrailerLines(lines, n + 1), text + CRLF + rest);
      TrailerLineRead(lines[n], more, before);
      LongTrailerRead(lines, n + 1, text, rest, payload, TrailerAdded(line, before));
    }
  }

  lemma {:induction false} NotEndedRead(c: WireChunk, text: string, rest: string, payload: string)
    requires LegalWrong(NotEnded(c, text))
    ensures !ChunksAt(SizeLine(c.size) + CRLF + (c.data + (text + CRLF + rest)), payload, []).ok
  {
    hide LineThen, StrToUl16, CStr, LegalSize, SizeLine, SizeOf;
    var s := c.data + (text + CRLF + rest);
    SizeLineRead(c.size, s);
    LineThenOf(text, rest);
    NoBlank(text);
    assert s[|c.data|..] == text + CRLF + rest;
  }

  /** A body with any of these behind legal chunks is refused, whatever follows. */
  lemma {:induction false} WireBodyRefused(chunks: seq<WireChunk>, w: Wrong, rest: string)
    requires (forall i :: 0 <= i < |chunks| ==> LegalChunk(chunks[i])) && LegalWrong(w)
    ensures !ReadChunked(ChunksText(chunks, 0) + (WrongText(w) + rest), []).ok
  {
    hide LineThen, StrToUl16, CStr, Trailers, LegalTrailer, LegalChunk, LegalSize, SizeOf, SizeLine;
    var more, payload := WrongText(w) + rest, Payload(chunks, 0);
    ReadIsChunksAt(ChunksText(chunks, 0) + more);
    WireChunksRead(chunks, 0, more, "", []);
    assert "" + payload == payload;
    match w
    case NoSize(text) =>
      LineThenOf(text, rest);
      NoSizeRead(text);
    case TooLarge(size) => SizeLineRead(size, rest);
    case NotEnded(chunk, text) =>
      Append3(SizeLine(chunk.size) + CRLF, chunk.data + (text + CRLF), rest);
      Append3(chunk.data, text + CRLF, rest);
      NotEndedRead(chunk, text, rest, payload);
    case LongTrailer(last, lines, text) =>
      Append3(SizeLine(last) + CRLF, TrailerLines(lines, 0) + (text + CRLF), rest);
      Append3(TrailerLines(lines, 0), text + CRLF, rest);
      SizeLineRead(last, TrailerLines(lines, 0) + (text + CRLF + rest));
      LongTrailerRead(lines, 0, text, rest, payload, []);
  }
}
