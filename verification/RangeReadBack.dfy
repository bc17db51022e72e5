/** What a partial response says about itself, read back: the positions in a Content-Range field,
    and the parts of a multipart/byteranges body. */
module RangeReadBack {
  import opened Bytes
  import opened Fields
  import opened Decimals
  import opened PartHeaders
  import opened RangeHeader
  import opened Ranges
  import opened RangeBodies
  import opened PartGrammar
  import opened MultipartGrammar
  import opened MultipartBodies
  import opened MultipartParser
  import MultipartSerializer

  // ---------------------------------------------------------- the Content-Range field

  const UNIT := "bytes "

  function Number(s: string): Option<nat> { if s != "" && AllDigits(s) then Some(Decimals.ValueOf(s)) else None }

  /** First position, last position and complete length, as a client reads them. */
  function FieldValues(field: string): Option<(nat, nat, nat)> {
    if |field| < |UNIT| || field[..|UNIT|] != UNIT then None
    else
      var t := field[|UNIT|..];
      var i := IndexOf(t, '-');
      if i == |t| then None
      else
        var u := t[i + 1..];
        var j := IndexOf(u, '/');
        if j == |u| then None
        else match (Number(t[..i]), Number(u[..j]), Number(u[j + 1..]))
          case (Some(first), Some(last), Some(complete)) => Some((first, last, complete))
          case _ => None
  }

  lemma {:induction false} NumberOf(n: nat)
    ensures Number(ToString(n)) == Some(n)
    ensures '-' !in ToString(n) && '/' !in ToString(n)
  {
    hide Dec;
    DecRoundTrip(n);
  }

  lemma CutAt(a: string, c: char, b: string)
    requires c !in a
    ensures var s := a + [c] + b; IndexOf(s, c) == |a| < |s| && s[..|a|] == a && s[|a| + 1..] == b
  {
    var s := a + [c] + b;
    assert s[|a|] == c && forall i :: 0 <= i < |a| ==> s[i] == a[i];
  }

  /** The field names exactly the bytes of the range, and the length of the whole content. */
  lemma {:induction false} FieldMeans(r: Range, len: nat)
    requires Inside(r, len)
    ensures FieldValues(ContentRange(r, len)) == Some((r.0, r.1, len))
  {
    hide ToString, Number;
    var a, b, c := ToString(r.0), ToString(r.1), ToString(len);
    NumberOf(r.0);
    NumberOf(r.1);
    NumberOf(len);
    var field, u := ContentRange(r, len), b + ['/'] + c;
    var t := a + ['-'] + u;
    assert field == UNIT + t by { FieldText(a, b, c); }
    assert field[..|UNIT|] == UNIT && field[|UNIT|..] == t;
    CutAt(a, '-', u);
    CutAt(b, '/', c);
  }

  lemma FieldText(a: string, b: string, c: string)
    ensures "bytes " + a + "-" + b + "/" + c == UNIT + (a + ['-'] + (b + ['/'] + c))
  {
  }

  /** A response with a single range carries exactly the bytes its field announces. */
  lemma {:induction false} SingleRangeMeans(r: Range, boundary: string, contentType: string, content: string)
    requires Inside(r, |content|)
    ensures match FieldValues(ContentRange(r, |content|))
            case None => false
            case Some((first, last, complete)) =>
              first <= last < complete == |content|
              && Body([r], boundary, contentType, content) == content[first..last + 1]
  {
    hide ContentRange, FieldValues;
    FieldMeans(r, |content|);
  }

  // ------------------------------------------------------- the multipart/byteranges body

  /** One part as fields: its type, if there is one, and its range. */
  function RangeFields(r: Range, contentType: string, len: nat): seq<PartField> {
    (if contentType == "" then [] else [TypeField("Content-Type", " ", contentType, "")])
    + [OtherField("Content-Range", " ", ContentRange(r, len), "")]
  }

  function RangePart(r: Range, contentType: string, content: string): FieldPart {
    FieldPart(RangeFields(r, contentType, |content|), Excerpt(content, r))
  }

  function RangeParts(ranges: seq<Range>, contentType: string, content: string): (parts: seq<FieldPart>)
    ensures |parts| == |ranges|
  {
    seq(|ranges|, n requires 0 <= n < |ranges| => RangePart(ranges[n], contentType, content))
  }

  lemma {:induction false} RangeIsValue(r: Range, len: nat)
    requires Inside(r, len)
    ensures IsFieldValue(ContentRange(r, len)) && |ContentRange(r, len)| >= 6
  {
    hide Dec;
    DecRoundTrip(r.0);
    DecRoundTrip(r.1);
    DecRoundTrip(len);
    var field := ContentRange(r, len);
    assert field[|field| - 1] == ToString(len)[|ToString(len)| - 1];
  }

  lemma {:induction false} RangeFieldLegal(r: Range, len: nat)
    requires Inside(r, len)
    ensures var f := OtherField("Content-Range", " ", ContentRange(r, len), "");
            LegalField(f) && FieldLine(f) == RANGE_NAME + ContentRange(r, len)
  {
    hide ContentRange, IsFieldValue;
    RangeIsValue(r, len);
    var key := "Content-Range";
    assert |key| == 13 && |"Content-Type"| == 12 && |"Content-Disposition"| == 19;
    assert "Content-Range" + ":" + " " == RANGE_NAME;
  }

  lemma TypeFieldLegal(contentType: string)
    requires IsFieldValue(contentType)
    ensures var f := TypeField("Content-Type", " ", contentType, "");
            LegalField(f) && FieldLine(f) == TYPE_NAME + contentType
  {
    assert "Content-Type" + ":" + " " == TYPE_NAME;
  }

  /** The header lines of a part. */
  function RangeLines(r: Range, contentType: string, len: nat): seq<string> {
    (if contentType == "" then [] else [TYPE_NAME + contentType]) + [RANGE_NAME + ContentRange(r, len)]
  }

  function RangeItem(r: Range, contentType: string, content: string): MultipartFormData {
    MultipartFormData("", Excerpt(content, r), "", contentType)
  }

  function RangeBody(ranges: seq<Range>, contentType: string, content: string): (body: seq<BodyPart>)
    ensures |body| == |ranges|
  {
    seq(|ranges|, n requires 0 <= n < |ranges| =>
          BodyPart(RangeLines(ranges[n], contentType, |content|), RangeItem(ranges[n], contentType, content)))
  }

  lemma {:induction false} HeadLines(r: Range, contentType: string, len: nat)
    ensures LinesText(RangeLines(r, contentType, len), 0) + CRLF
            == TypeLine(contentType) + Line(RANGE_NAME, ContentRange(r, len)) + CRLF
  {
    hide ContentRange;
    var lines, field := RangeLines(r, contentType, len), RANGE_NAME + ContentRange(r, len);
    assert LinesText(lines, |lines|) == "";
    assert Line(RANGE_NAME, ContentRange(r, len)) == field + CRLF + "";
    assert LinesText(lines, |lines| - 1) == field + CRLF + "";
    if contentType != "" { assert LinesText(lines, 0) == TypeLine(contentType) + (field + CRLF + ""); }
  }

  lemma PartIs(dash: string, boundary: string, kind: string, field: string, excerpt: string, crlf: string)
    ensures (dash + boundary + crlf) + kind + field + crlf + excerpt + crlf
            == dash + boundary + crlf + (kind + field + crlf) + (excerpt + crlf)
  {
  }

  /** The generated body, with the line break a reader expects behind its closing delimiter, is a
      multipart body in which each range has one part with its lines and its bytes. */
  lemma {:induction false} RenderedIsBody(ranges: seq<Range>, n: nat, boundary: string, contentType: string,
                                          content: string)
    requires n <= |ranges|
    ensures Rendered(ranges, n, boundary, contentType, content) + CRLF
            == DASH + boundary + PartsTail(RangeBody(ranges, contentType, content), n, boundary)
    decreases |ranges| - n
  {
    hide ContentRange, LinesText, RangeLines, Excerpt;
    var body := RangeBody(ranges, contentType, content);
    if n == |ranges| {
      Append3(DASH + boundary, DASH, CRLF);
    } else {
      var r, len := ranges[n], |content|;
      var block, excerpt := LinesText(RangeLines(r, contentType, len), 0), Excerpt(content, r);
      var kind, field := TypeLine(contentType), Line(RANGE_NAME, ContentRange(r, len));
      var part, tail := RangeBodies.Part(r, boundary, contentType, content), PartsTail(body, n + 1, boundary);
      RenderedIsBody(ranges, n + 1, boundary, contentType, content);
      HeadLines(r, contentType, len);
      PartIs(DASH, boundary, kind, field, excerpt, CRLF);
      MultipartSerializer.Regroup(DASH, boundary, CRLF, block + CRLF, excerpt, tail);
      Append3(part, Rendered(ranges, n + 1, boundary, contentType, content), CRLF);
      Append3(block, CRLF, AfterLines(body, n, boundary));
    }
  }

  function Pow10(k: nat): nat { if k == 0 then 1 else 10 * Pow10(k - 1) }

  lemma {:induction false} DecLength(n: nat, k: nat)
    requires k > 0 && n < Pow10(k)
    ensures |Dec(n)| <= k
  {
    if n >= 10 { DecLength(n / 10, k - 1); }
  }

  lemma SizesFit()
    ensures SSIZE_MAX < Pow10(19)
  {
    assert Pow10(5) == 100000;
    assert Pow10(10) == 100000 * Pow10(5);
    assert Pow10(15) == 100000 * Pow10(10);
  }

  lemma {:induction false} RangeLineFits(r: Range, len: nat)
    requires Inside(r, len) && len <= SSIZE_MAX
    ensures |RANGE_NAME + ContentRange(r, len)| < HEADER_MAX_LENGTH
  {
    hide Dec;
    SizesFit();
    DecLength(r.0, 19);
    DecLength(r.1, 19);
    DecLength(len, 19);
  }

  predicate PlainType(contentType: string) {
    contentType == "" || (IsFieldValue(contentType) && |TYPE_NAME + contentType| < HEADER_MAX_LENGTH)
  }

  /** The parts as fields are the parts as lines, and mean their type and their bytes. */
  lemma {:induction false} RangePartRead(r: Range, contentType: string, content: string)
    requires Inside(r, |content|) && |content| <= SSIZE_MAX && PlainType(contentType)
    ensures var part := RangePart(r, contentType, content);
            LegalFields(part.fields) && FieldLines(part.fields) == RangeLines(r, contentType, |content|)
            && ItemOf(part) == RangeItem(r, contentType, content)
  {
    hide ContentRange, LegalField, FieldLine, IsFieldValue, Excerpt;
    var part, len := RangePart(r, contentType, content), |content|;
    var fields := part.fields;
    RangeFieldLegal(r, len);
    RangeLineFits(r, len);
    assert Described(fields, 0) == NO_FILE;
    if contentType == "" {
      assert Described(fields, 1) == NO_FILE;
    } else {
      TypeFieldLegal(contentType);
      assert Described(fields, 1) == NO_FILE.(contentType := contentType);
      assert Described(fields, 2) == NO_FILE.(contentType := contentType);
    }
  }

  function RangeItems(ranges: seq<Range>, contentType: string, content: string): (items: seq<MultipartFormData>)
    ensures |items| == |ranges|
  {
    seq(|ranges|, n requires 0 <= n < |ranges| => RangeItem(ranges[n], contentType, content))
  }

  lemma BodyIs(parts: seq<BodyPart>, boundary: string)
    ensures BodyText(parts, boundary) == DASH + boundary + PartsTail(parts, 0, boundary)
  {
  }

  /** Read as a multipart body, from any fragments, the answer to several ranges gives one part
      for each, in order, with the content type and exactly the bytes its Content-Range
      announces. */
  lemma {:induction false} RangesReadBack(ranges: seq<Range>, boundary: string, contentType: string, content: string,
                                          accept: Receiver, fragments: seq<string>)
    requires ranges != [] && AllInside(ranges, |ranges|, |content|) && |content| <= SSIZE_MAX && PlainType(contentType)
    requires '\r' !in boundary && Undelimited(RangeItems(ranges, contentType, content), boundary)
    requires Takes(accept, |ranges|) && OpensWhole(fragments, boundary)
    requires Joined(fragments) == Rendered(ranges, 0, boundary, contentType, content)
    ensures var (ok, q) := Feed(INITIAL, Opening(boundary), Delimiter(boundary), accept, fragments);
            ok && q.valid && |Assembled(q.events)| == |ranges|
            && forall n :: 0 <= n < |ranges| ==>
                 var part, values := Assembled(q.events)[n], FieldValues(ContentRange(ranges[n], |content|));
                 part.contentType == contentType && values == Some((ranges[n].0, ranges[n].1, |content|))
                 && part.content == content[values.value.0..values.value.1 + 1]
  {
    hide Opening, Delimiter, Takes, Assembled, OpensWhole, Rendered, BodyText, ContentRange, FieldValues, LegalFields,
         FieldLines, RangeLines, ItemOf, RangePart, PlainType, Clean;
    var parts := RangeParts(ranges, contentType, content);
    forall n | 0 <= n < |ranges|
      ensures LegalFields(parts[n].fields)
              && FieldLines(parts[n].fields) == RangeLines(ranges[n], contentType, |content|)
              && ItemOf(parts[n]) == RangeItem(ranges[n], contentType, content)
              && FieldValues(ContentRange(ranges[n], |content|)) == Some((ranges[n].0, ranges[n].1, |content|))
    {
      assert Inside(ranges[n], |content|);
      RangePartRead(ranges[n], contentType, content);
      FieldMeans(ranges[n], |content|);
    }
    assert AsBody(parts) == RangeBody(ranges, contentType, content);
    assert ItemsOf(parts) == RangeItems(ranges, contentType, content);
    assert Rendered(ranges, 0, boundary, contentType, content) + CRLF == BodyText(AsBody(parts), boundary) by {
      RenderedIsBody(ranges, 0, boundary, contentType, content);
      BodyIs(AsBody(parts), boundary);
    }
    GrammarRead(parts, boundary, accept, fragments, CRLF);
  }
}
