/** Bodies as any client may write them, with legal header lines of all kinds: the parser
    reports the parts with what their lines mean, and refuses a body at a line it cannot take. */
module MultipartGrammar {
  import opened PartHeaders
  import opened MultipartParser
  import opened MultipartBodies
  import opened PartGrammar

  datatype FieldPart = FieldPart(fields: seq<PartField>, content: string)

  predicate LegalFields(fields: seq<PartField>) {
    forall j :: 0 <= j < |fields| ==> LegalField(fields[j]) && |FieldLine(fields[j])| < 8192
  }

  predicate LegalParts(parts: seq<FieldPart>) { forall n :: 0 <= n < |parts| ==> LegalFields(parts[n].fields) }

  function FieldLines(fields: seq<PartField>): seq<string>
    requires LegalFields(fields)
  {
    seq(|fields|, j requires 0 <= j < |fields| => FieldLine(fields[j]))
  }

  function ItemOf(part: FieldPart): MultipartFormData {
    Described(part.fields, |part.fields|).(content := part.content)
  }

  function ItemsOf(parts: seq<FieldPart>): (items: seq<MultipartFormData>)
    ensures |items| == |parts|
  {
    seq(|parts|, n requires 0 <= n < |parts| => ItemOf(parts[n]))
  }

  function AsBody(parts: seq<FieldPart>): (body: seq<BodyPart>)
    requires LegalParts(parts)
    ensures |body| == |parts|
  {
    seq(|parts|, n requires 0 <= n < |parts| => BodyPart(FieldLines(parts[n].fields), ItemOf(parts[n])))
  }

  lemma {:induction false} DescribedEmpty(fields: seq<PartField>, j: nat)
    requires j <= |fields|
    ensures Described(fields, j).content == ""
  {
    if j > 0 { DescribedEmpty(fields, j - 1); }
  }

  lemma FieldLineIsLine(f: PartField)
    requires LegalField(f)
    ensures FieldLine(f) != "" && '\r' !in FieldLine(f)
  {
    TokenPlain(f.key);
  }

  lemma {:induction false} LinesMean(lines: seq<string>, fields: seq<PartField>, j: nat)
    requires LegalFields(fields) && j <= |fields| <= |lines|
    requires forall i :: 0 <= i < |fields| ==> lines[i] == FieldLine(fields[i])
    ensures FileAfter(lines, j) == Described(fields, j)
    ensures forall i :: 0 <= i < j ==> Taken(lines, i)
    decreases j
  {
    hide PartHeader, LegalField, FieldLine, Meant;
    if j > 0 {
      LinesMean(lines, fields, j - 1);
      var f := fields[j - 1];
      FieldRead(f, Described(fields, j - 1));
      FieldLineIsLine(f);
      assert Taken(lines, j - 1);
    }
  }

  lemma {:induction false} PartReadable(part: FieldPart)
    requires LegalFields(part.fields)
    ensures Readable(BodyPart(FieldLines(part.fields), ItemOf(part)))
  {
    hide LegalField, Described, Taken, FileAfter, FieldLine;
    var lines := FieldLines(part.fields);
    assert forall i :: 0 <= i < |lines| ==> lines[i] == FieldLine(part.fields[i]);
    LinesMean(lines, part.fields, |lines|);
    DescribedEmpty(part.fields, |lines|);
  }

  /** Whatever fields the parts have, in whatever order and spelling, the parser reports their
      items, each with what its fields mean, from any fragments, and with or without the line
      break behind the closing delimiter. */
  lemma {:induction false} GrammarRead(parts: seq<FieldPart>, boundary: string, accept: Receiver,
                                       fragments: seq<string>, missing: string)
    requires parts != [] && LegalParts(parts) && '\r' !in boundary && Undelimited(ItemsOf(parts), boundary)
    requires Takes(accept, |parts|)
    requires Joined(fragments) + missing == BodyText(AsBody(parts), boundary) && missing in {"", "\n", "\r\n"}
    requires OpensWhole(fragments, boundary)
    ensures var (ok, q) := Feed(INITIAL, Opening(boundary), Delimiter(boundary), accept, fragments);
            ok && q.valid && Assembled(q.events) == ItemsOf(parts)
  {
    hide Opening, Delimiter, Takes, Assembled, BodyText, Readable, ItemOf, FieldLines, LegalFields, OpensWhole;
    var body := AsBody(parts);
    assert Items(body) == ItemsOf(parts);
    forall n | 0 <= n < |body| ensures Readable(body[n]) { PartReadable(parts[n]); }
    BodyRead(body, boundary, accept, fragments, missing);
  }

  /** A part that begins with legal fields, and then has a line that is none or says too little. */
  function BadPart(fields: seq<PartField>, bad: BadLine, more: seq<string>, item: MultipartFormData): BodyPart
    requires LegalFields(fields) && LegalBad(bad)
  {
    BodyPart(FieldLines(fields) + [BadText(bad)] + more, item)
  }

  /** From any fragments the body is refused there, with exactly the parts before it. */
  lemma {:induction false} GrammarRefused(parts: seq<FieldPart>, fields: seq<PartField>, bad: BadLine,
                                          more: seq<string>, item: MultipartFormData, others: seq<BodyPart>,
                                          boundary: string, accept: Receiver, fragments: seq<string>)
    requires LegalParts(parts) && '\r' !in boundary && Undelimited(ItemsOf(parts), boundary)
    requires LegalFields(fields) && LegalBad(bad) && BadText(bad) != "" && '\r' !in BadText(bad)
    requires Takes(accept, |parts| + 1 + |others|)
    requires var body := AsBody(parts) + [BadPart(fields, bad, more, item)] + others;
             Joined(fragments) == BodyText(body, boundary) && OpensWhole(fragments, boundary)
    ensures var (ok, q) := Feed(INITIAL, Opening(boundary), Delimiter(boundary), accept, fragments);
            !ok && Assembled(q.events) == ItemsOf(parts)
  {
    hide Opening, Delimiter, Takes, Assembled, BodyText, Readable, ItemOf, FieldLine, LegalField, OpensWhole, Clean,
         Taken, FileAfter, LegalBad, Described;
    var m, body := |parts|, AsBody(parts) + [BadPart(fields, bad, more, item)] + others;
    forall n | 0 <= n < m ensures Readable(body[n]) && Clean(body[n].item.content, Delimiter(boundary)) {
      PartReadable(parts[n]);
      assert ItemsOf(parts)[n] == body[n].item;
    }
    var lines := body[m].lines;
    assert forall i :: 0 <= i < |fields| ==> lines[i] == FieldLine(fields[i]);
    LinesMean(lines, fields, |fields|);
    assert lines[|fields|] == BadText(bad);
    BadRead(bad, FileAfter(lines, |fields|));
    BodyStopped(body, boundary, m, |fields|, accept, fragments);
    assert Items(body)[..m] == ItemsOf(parts);
  }

  /** A first header line that is too long is refused as well. */
  lemma {:induction false} TooLongRefused(parts: seq<FieldPart>, line: string, more: seq<string>,
                                          item: MultipartFormData, others: seq<BodyPart>, boundary: string,
                                          accept: Receiver, fragments: seq<string>)
    requires LegalParts(parts) && '\r' !in boundary && Undelimited(ItemsOf(parts), boundary)
    requires '\r' !in line && |line| > 8192 && Takes(accept, |parts| + 1 + |others|)
    requires var body := AsBody(parts) + [BodyPart([line] + more, item)] + others;
             Joined(fragments) == BodyText(body, boundary) && OpensWhole(fragments, boundary)
    ensures var (ok, q) := Feed(INITIAL, Opening(boundary), Delimiter(boundary), accept, fragments);
            !ok && Assembled(q.events) == ItemsOf(parts)
  {
    hide Opening, Delimiter, Takes, Assembled, BodyText, Readable, ItemOf, FieldLines, LegalFields, OpensWhole, Clean,
         PartHeader;
    var m, body := |parts|, AsBody(parts) + [BodyPart([line] + more, item)] + others;
    forall n | 0 <= n < m ensures Readable(body[n]) && Clean(body[n].item.content, Delimiter(boundary)) {
      PartReadable(parts[n]);
      assert ItemsOf(parts)[n] == body[n].item;
    }
    assert body[m].lines[0] == line;
    BodyStopped(body, boundary, m, 0, accept, fragments);
    assert Items(body)[..m] == ItemsOf(parts);
  }
}
