/** Multipart bodies whose parts have any header lines the parser takes, and how it follows
    them, however they are cut into fragments. */
module MultipartBodies {
  import opened Bytes
  import opened Fields
  import opened PartHeaders
  import opened MultipartParser

  // ------------------------------------------------- what the receiver puts together

  function WithContent(item: MultipartFormData, content: string): MultipartFormData { item.(content := content) }

  /** One call on the caller: data goes to the last part announced. */
  function Collected(parts: seq<MultipartFormData>, e: Event): seq<MultipartFormData> {
    if e.Part? then parts + [e.file]
    else if parts == [] then []
    else
      var n := |parts| - 1;
      parts[n := WithContent(parts[n], parts[n].content + e.bytes)]
  }

  function Assembled(events: seq<Event>): seq<MultipartFormData> {
    if events == [] then [] else Collected(Assembled(events[..|events| - 1]), events[|events| - 1])
  }

  lemma AssembledNext(events: seq<Event>, e: Event)
    ensures Assembled(events + [e]) == Collected(Assembled(events), e)
  {
    var all := events + [e];
    assert all[..|all| - 1] == events;
  }

  /** A receiver that takes at least `count` parts, with any content. */
  ghost predicate Takes(accept: Receiver, count: nat) {
    forall events :: |Assembled(events)| <= count ==> accept(events)
  }

  // ----------------------------------------------------------------------- bodies

  /** A part as it is written, by its header lines, and as it should be read. */
  datatype BodyPart = BodyPart(lines: seq<string>, item: MultipartFormData)

  /** The header lines from the `j`-th on, each with its line break. */
  function LinesText(lines: seq<string>, j: nat): string
    requires j <= |lines|
    decreases |lines| - j
  {
    if j == |lines| then "" else lines[j] + CRLF + LinesText(lines, j + 1)
  }

  /** What follows the first `--boundary` of the parts from the `n`-th on. */
  function PartsTail(parts: seq<BodyPart>, n: nat, boundary: string): string
    requires n <= |parts|
    decreases |parts| - n
  {
    if n == |parts| then DASH + CRLF
    else CRLF + (LinesText(parts[n].lines, 0) + (CRLF + AfterLines(parts, n, boundary)))
  }

  function AfterLines(parts: seq<BodyPart>, n: nat, boundary: string): string
    requires n < |parts|
    decreases |parts| - n, 1
  {
    parts[n].item.content + Delimiter(boundary) + PartsTail(parts, n + 1, boundary)
  }

  function BodyText(parts: seq<BodyPart>, boundary: string): string { DASH + boundary + PartsTail(parts, 0, boundary) }

  function Items(parts: seq<BodyPart>): (r: seq<MultipartFormData>)
    ensures |r| == |parts| && forall n :: 0 <= n < |parts| ==> r[n] == parts[n].item
  {
    if parts == [] then [] else [parts[0].item] + Items(parts[1..])
  }

  /** What the parser has gathered from the first `j` header lines. */
  function FileAfter(lines: seq<string>, j: nat): MultipartFormData
    requires j <= |lines|
  {
    if j == 0 then NO_FILE else PartHeader(lines[j - 1], FileAfter(lines, j - 1)).1
  }

  /** A line that arrives whole: not empty, not too long, and without a line break. */
  predicate IsHeaderLine(line: string) { line != "" && '\r' !in line && |line| < HEADER_MAX_LENGTH }

  predicate Taken(lines: seq<string>, j: nat)
    requires j < |lines|
  {
    IsHeaderLine(lines[j]) && PartHeader(lines[j], FileAfter(lines, j)).0
  }

  /** The parser takes every header line, and gathers what the part should be read as. */
  ghost predicate Readable(part: BodyPart) {
    (forall j :: 0 <= j < |part.lines| ==> Taken(part.lines, j))
    && FileAfter(part.lines, |part.lines|) == WithContent(part.item, "")
  }

  ghost predicate AllReadable(parts: seq<BodyPart>, boundary: string) {
    '\r' !in boundary && forall n :: 0 <= n < |parts| ==> Readable(parts[n])
  }

  /** No content holds the delimiter. */
  ghost predicate Undelimited(items: seq<MultipartFormData>, boundary: string) {
    forall n :: 0 <= n < |items| ==> Clean(items[n].content, Delimiter(boundary))
  }

  // ---------------------------------------------------------- searching the buffer

  ghost predicate Clean(s: string, o: string) { forall j: nat :: !OccursAt(s, o, j) }

  /** The text still to be parsed is `x`, a delimiter not found in `x`, and `y`. The live
      window either holds the delimiter whole, exactly behind `x`, or no part of it that
      the parser would hand over. */
  lemma WindowSearch(live: string, rest: string, x: string, d: string, y: string)
    requires d != "" && d[0] !in d[1..] && live + rest == x + d + y && Clean(x, d)
    ensures if |x| + |d| <= |live|
            then Find(live, d) == |x| < |live| && live[..|x|] == x && live[|x| + |d|..] + rest == y
            else Find(live, d) == |live| && rest != ""
  {
    var all := x + d + y;
    FindAfter(x, d, y);
    FindInPrefix(live, rest, d);
    if |x| + |d| <= |live| {
      var n := |x| + |d|;
      assert live[..|x|] == all[..|x|] == x;
      assert all == (x + d) + y;
      assert all[n..] == y;
      assert live[n..] + rest == (live + rest)[n..];
    }
  }

  lemma PartialBody(live: string, rest: string, x: string, d: string, y: string)
    requires live + rest == x + d + y && |d| <= |live| < |x| + |d|
    ensures var len := |live| - |d|;
            len <= |x| && live[..len] == x[..len] && live[len..] + rest == x[len..] + d + y
  {
    var all := x + d + y;
    var len := |live| - |d|;
    assert live[..len] == all[..len] == x[..len];
    assert live[len..] + rest == (live + rest)[len..];
    assert all == x + (d + y);
    assert all[len..] == x[len..] + (d + y);
  }

  // --------------------------------------------------------------- progress so far

  /** Where the parser is inside the part `n`: before its `j`-th header line, or in its content
      at byte `k`. */
  datatype Phase = Separator | Fresh | Lines(j: nat) | Content(k: nat) | Ended

  /** Parser and unread text agree on what has been reported and what is to come. */
  ghost predicate Good(p: Parser, rest: string, parts: seq<BodyPart>, boundary: string, n: nat, phase: Phase) {
    var all, items := p.live + rest, Items(parts);
    match phase
    case Separator =>
      p.state == 4 && n <= |parts| && Assembled(p.events) == items[..n] && all == PartsTail(parts, n, boundary)
    case Fresh =>
      p.state == 1 && n < |parts| && Assembled(p.events) == items[..n]
      && all == LinesText(parts[n].lines, 0) + (CRLF + AfterLines(parts, n, boundary))
    case Lines(j) =>
      p.state == 2 && n < |parts| && j <= |parts[n].lines| && Assembled(p.events) == items[..n]
      && p.file == FileAfter(parts[n].lines, j)
      && all == LinesText(parts[n].lines, j) + (CRLF + AfterLines(parts, n, boundary))
    case Content(k) =>
      p.state == 3 && n < |parts| && k <= |items[n].content|
      && Assembled(p.events) == items[..n] + [WithContent(items[n], items[n].content[..k])]
      && all == items[n].content[k..] + Delimiter(boundary) + PartsTail(parts, n + 1, boundary)
    case Ended =>
      p.valid && Assembled(p.events) == items
      && ((p.state == 4 && (all == "" || all == "\n" || all == CRLF)) || (p.state == 1 && all == ""))
  }

  /** No phase of the `count` parts is skipped. */
  predicate Follows(count: nat, n: nat, phase: Phase, n': nat, phase': Phase) {
    if phase.Content? then (n' == n && phase'.Content?) || (n' == n + 1 && phase' == Separator)
    else n' == n && (phase'.Content? ==> phase.Lines? && phase'.k == 0)
         && (phase'.Lines? ==> phase.Lines? || phase'.j == 0) && (phase' == Ended ==> phase == Ended || n == count)
  }

  // ------------------------------------------------------------------ single rounds

  lemma NoCrlfIn(line: string)
    requires '\r' !in line
    ensures Clean(line, CRLF)
  {
    forall j: nat ensures !OccursAt(line, CRLF, j) {
      if j + 2 <= |line| { assert line[j..j + 2][0] == line[j] != '\r'; }
    }
  }

  /** One complete header line `line` in front of `y`: either it is still incomplete in the
      window, or the parser takes it and goes on with `y`. */
  lemma {:induction false} FieldLineRound(p: Parser, rest: string, line: string, y: string, file: MultipartFormData,
                                          accept: Receiver)
    requires p.state == 2 && p.live + rest == line + CRLF + y && '\r' !in line && line != ""
    requires PartHeader(line, p.file) == (true, file)
    ensures if |line| + 2 <= |p.live|
            then var q := p.(file := file, live := p.live[|line| + 2..]);
                 LinesTurn(p, accept) == LinesTurn(q, accept) && q.live + rest == y && |q.live| < |p.live|
            else LinesTurn(p, accept) == Return(true, p) && |rest| > |y|
    ensures Find(p.live, CRLF) <= |line| + 1
  {
    hide PartHeader, OccursAt;
    NoCrlfIn(line);
    WindowSearch(p.live, rest, line, CRLF, y);
  }

  lemma BlankLineRound(p: Parser, rest: string, y: string, accept: Receiver)
    requires p.state == 2 && p.live + rest == CRLF + y && accept(p.events + [Part(p.file)])
    ensures if 2 <= |p.live|
            then var q := p.(events := p.events + [Part(p.file)], live := p.live[2..], state := 3);
                 LinesTurn(p, accept) == Continue(q) && q.live + rest == y
            else LinesTurn(p, accept) == Return(true, p) && |rest| > |y|
    ensures Find(p.live, CRLF) <= 1
  {
    assert "" + CRLF + y == CRLF + y;
    NoCrlfIn("");
    WindowSearch(p.live, rest, "", CRLF, y);
  }

  lemma {:induction false} BlankGood(p: Parser, rest: string, parts: seq<BodyPart>, boundary: string, n: nat,
                                     accept: Receiver)
    returns (phase': Phase)
    requires Takes(accept, |parts|) && n < |parts| && Readable(parts[n])
    requires Good(p, rest, parts, boundary, n, Lines(|parts[n].lines|))
    ensures match LinesTurn(p, accept)
            case Return(ok, q) => ok && |rest| > 2 && Good(q, rest, parts, boundary, n, phase')
            case Continue(q) => Good(q, rest, parts, boundary, n, phase')
    ensures phase' == Lines(|parts[n].lines|) || phase' == Content(0)
    ensures Find(p.live, CRLF) <= HEADER_MAX_LENGTH
  {
    hide Taken, FileAfter, PartsTail;
    var item, called := parts[n].item, p.events + [Part(p.file)];
    AssembledNext(p.events, Part(p.file));
    assert |Assembled(called)| <= |parts|;
    assert "" + (CRLF + AfterLines(parts, n, boundary)) == CRLF + AfterLines(parts, n, boundary);
    BlankLineRound(p, rest, AfterLines(parts, n, boundary), accept);
    assert item.content[..0] == "" && item.content[0..] == item.content;
    phase' := if 2 <= |p.live| then Content(0) else Lines(|parts[n].lines|);
  }

  lemma {:induction false} LinesGood(p: Parser, rest: string, parts: seq<BodyPart>, boundary: string, n: nat, j: nat,
                                     accept: Receiver)
    returns (phase': Phase)
    requires Takes(accept, |parts|) && n < |parts| && Readable(parts[n])
    requires Good(p, rest, parts, boundary, n, Lines(j))
    ensures match LinesTurn(p, accept)
            case Return(ok, q) => ok && |rest| > 2 && Good(q, rest, parts, boundary, n, phase')
            case Continue(q) => Good(q, rest, parts, boundary, n, phase')
    ensures phase'.Lines? || phase' == Content(0)
    ensures Find(p.live, CRLF) <= HEADER_MAX_LENGTH
    decreases |parts[n].lines| - j
  {
    hide PartHeader, LinesTurn, AfterLines, Assembled, Takes;
    var lines, after := parts[n].lines, CRLF + AfterLines(parts, n, boundary);
    if j == |lines| {
      phase' := BlankGood(p, rest, parts, boundary, n, accept);
    } else {
      assert Taken(lines, j);
      var line, y := lines[j], LinesText(lines, j + 1) + after;
      Append3(line + CRLF, LinesText(lines, j + 1), after);
      FieldLineRound(p, rest, line, y, FileAfter(lines, j + 1), accept);
      phase' := Lines(j);
      if |line| + 2 <= |p.live| {
        var q := p.(file := FileAfter(lines, j + 1), live := p.live[|line| + 2..]);
        phase' := LinesGood(q, rest, parts, boundary, n, j + 1, accept);
      }
    }
  }

  /** At a delimiter: another part, or the closing dashes with what is left of the text. */
  lemma {:induction false} SeparatorGood(p: Parser, rest: string, parts: seq<BodyPart>, boundary: string,
                                         n: nat)
    returns (phase': Phase)
    requires Good(p, rest, parts, boundary, n, Separator)
    ensures match BoundaryTurn(p)
            case Return(ok, q) => ok && |rest| > 2 && Good(q, rest, parts, boundary, n, phase')
            case Continue(q) => Good(q, rest, parts, boundary, n, phase')
    ensures Follows(|parts|, n, Separator, n, phase')
  {
    hide LinesText, AfterLines, Assembled;
    var all := p.live + rest;
    phase' := Separator;
    if |p.live| >= 2 {
      assert p.live[0..2] == all[..2];
      if n == |parts| {
        assert rest == all[|p.live|..];
        phase' := Ended;
        assert Items(parts)[..n] == Items(parts);
      } else {
        assert p.live[2..] + rest == all[2..];
        phase' := Fresh;
      }
    }
  }

  lemma {:induction false} EndedGood(p: Parser, rest: string, parts: seq<BodyPart>, boundary: string, n: nat)
    requires p.live != "" && Good(p, rest, parts, boundary, n, Ended)
    ensures p.state == 4
    ensures match BoundaryTurn(p)
            case Return(ok, q) => ok && Good(q, rest, parts, boundary, n, Ended)
            case Continue(q) => Good(q, rest, parts, boundary, n, Ended)
  {
    hide Assembled;
    var all := p.live + rest;
    assert |all| == |p.live| + |rest|;
    if |p.live| >= 2 { assert p.live == CRLF && p.live[0..2] == CRLF; }
  }

  lemma NotInSuffix(content: string, d: string, k: nat)
    requires k <= |content| && Clean(content, d)
    ensures Clean(content[k..], d)
  {
    forall j: nat ensures !OccursAt(content[k..], d, j) {
      assert !OccursAt(content, d, k + j);
      if j + |d| <= |content| - k { assert content[k..][j..j + |d|] == content[k + j..k + j + |d|]; }
    }
  }

  /** The content grows by the bytes handed over. */
  lemma DataCollected(events: seq<Event>, done: seq<MultipartFormData>, item: MultipartFormData, k: nat, len: nat)
    requires k + len <= |item.content|
    requires Assembled(events) == done + [WithContent(item, item.content[..k])]
    ensures Assembled(events + [Data(item.content[k..][..len])]) == done + [WithContent(item, item.content[..k + len])]
  {
    var data := item.content[k..][..len];
    AssembledNext(events, Data(data));
    assert item.content[..k] + data == item.content[..k + len];
  }

  lemma DelimiterStart(boundary: string)
    requires '\r' !in boundary
    ensures var d := Delimiter(boundary); d[0] == '\r' && '\r' !in d[1..]
  {
    var d := Delimiter(boundary);
    assert d[1..] == "\n--" + boundary;
  }

  /** Part of the content is handed over. */
  lemma {:induction false} DataGood(p: Parser, rest: string, parts: seq<BodyPart>, boundary: string, n: nat, k: nat)
    requires Good(p, rest, parts, boundary, n, Content(k))
    requires |Delimiter(boundary)| <= |p.live| < |parts[n].item.content| - k + |Delimiter(boundary)|
    ensures var len := |p.live| - |Delimiter(boundary)|;
            var q := p.(events := p.events + [Data(p.live[..len])], live := p.live[len..]);
            k + len <= |parts[n].item.content| && Good(q, rest, parts, boundary, n, Content(k + len))
  {
    hide Delimiter, PartsTail, Assembled;
    var items := Items(parts);
    var content, d, y := items[n].content, Delimiter(boundary), PartsTail(parts, n + 1, boundary);
    var len := |p.live| - |d|;
    PartialBody(p.live, rest, content[k..], d, y);
    DataCollected(p.events, items[..n], items[n], k, len);
    DropDrop(content, k, len);
  }

  lemma {:induction false} TailGoesOn(parts: seq<BodyPart>, n: nat, boundary: string)
    requires n <= |parts|
    ensures |PartsTail(parts, n, boundary)| > 2
  {
    hide LinesText;
  }

  lemma {:induction false} BodyGood(p: Parser, rest: string, parts: seq<BodyPart>, boundary: string, n: nat, k: nat,
                                    accept: Receiver)
    returns (n': nat, phase': Phase)
    requires '\r' !in boundary && Takes(accept, |parts|)
    requires Good(p, rest, parts, boundary, n, Content(k)) && Clean(parts[n].item.content, Delimiter(boundary))
    ensures match BodyTurn(p, Delimiter(boundary), accept)
            case Return(ok, q) => ok && |rest| > 2 && Good(q, rest, parts, boundary, n', phase')
            case Continue(q) => Good(q, rest, parts, boundary, n', phase')
    ensures Follows(|parts|, n, Content(k), n', phase')
  {
    hide Delimiter, PartsTail, Assembled, Find;
    var items := Items(parts);
    var item, d, y := items[n], Delimiter(boundary), PartsTail(parts, n + 1, boundary);
    var x := item.content[k..];
    DelimiterStart(boundary);
    NotInSuffix(item.content, d, k);
    WindowSearch(p.live, rest, x, d, y);
    TailGoesOn(parts, n + 1, boundary);
    n', phase' := n, Content(k);
    if |x| + |d| <= |p.live| {
      DataCollected(p.events, items[..n], item, k, |x|);
      assert x[..|x|] == x && item.content[..k + |x|] == item.content;
      TakeNext(items, n);
      assert items[..n] + [WithContent(item, item.content)] == items[..n + 1];
      n', phase' := n + 1, Separator;
    } else if |d| <= |p.live| {
      DataGood(p, rest, parts, boundary, n, k);
      phase' := Content(k + (|p.live| - |d|));
    }
  }

  // ------------------------------------------------------------------- whole runs

  lemma {:induction false} RoundGood(p: Parser, rest: string, parts: seq<BodyPart>, boundary: string, n: nat,
                                     phase: Phase, accept: Receiver)
    returns (n': nat, phase': Phase)
    requires '\r' !in boundary && Takes(accept, |parts|) && p.live != ""
    requires Good(p, rest, parts, boundary, n, phase)
    requires n < |parts| && phase.Lines? ==> Readable(parts[n])
    requires n < |parts| && phase.Content? ==> Clean(parts[n].item.content, Delimiter(boundary))
    ensures match Round(p, Opening(boundary), Delimiter(boundary), accept)
            case Return(ok, q) =>
              ok && (|rest| <= 2 ==> phase' == Ended) && Good(q, rest, parts, boundary, n', phase')
            case Continue(q) => Good(q, rest, parts, boundary, n', phase')
    ensures Follows(|parts|, n, phase, n', phase')
  {
    hide LinesTurn, BodyTurn, BoundaryTurn, Takes, Readable, Assembled, PartsTail, AfterLines, LinesText, Clean;
    n', phase' := n, phase;
    match phase
    case Separator => phase' := SeparatorGood(p, rest, parts, boundary, n);
    case Fresh => phase' := Lines(0);
    case Lines(j) => phase' := LinesGood(p, rest, parts, boundary, n, j, accept);
    case Content(k) => n', phase' := BodyGood(p, rest, parts, boundary, n, k, accept);
    case Ended => EndedGood(p, rest, parts, boundary, n);
  }

  lemma {:induction false} MoreToCome(p: Parser, rest: string, parts: seq<BodyPart>, boundary: string, n: nat,
                                      phase: Phase)
    requires Good(p, rest, parts, boundary, n, phase) && phase != Ended
    ensures |p.live + rest| > 2
  {
    hide LinesText, Assembled;
  }

  lemma {:induction false} RunGood(p: Parser, rest: string, parts: seq<BodyPart>, boundary: string, n: nat,
                                   phase: Phase, accept: Receiver)
    returns (n': nat, phase': Phase)
    requires AllReadable(parts, boundary) && Undelimited(Items(parts), boundary) && Takes(accept, |parts|)
    requires Good(p, rest, parts, boundary, n, phase)
    ensures var (ok, q) := Run(p, Opening(boundary), Delimiter(boundary), accept);
            ok && Good(q, rest, parts, boundary, n', phase') && (|rest| <= 2 ==> phase' == Ended)
    decreases |p.live|, if p.state == 1 then 1 else 0
  {
    hide Good, Readable, Clean, Takes, Opening, Delimiter;
    if p.live == "" {
      n', phase' := n, phase;
      if phase != Ended { MoreToCome(p, rest, parts, boundary, n, phase); }
    } else {
      n', phase' := RoundGood(p, rest, parts, boundary, n, phase, accept);
      var turn := Round(p, Opening(boundary), Delimiter(boundary), accept);
      if turn.Continue? { n', phase' := RunGood(turn.p, rest, parts, boundary, n', phase', accept); }
    }
  }

  function Joined(fragments: seq<string>): string {
    if fragments == [] then "" else fragments[0] + Joined(fragments[1..])
  }

  lemma {:induction false} FeedGood(p: Parser, fragments: seq<string>, missing: string, parts: seq<BodyPart>,
                                    boundary: string, n: nat, phase: Phase, accept: Receiver)
    requires AllReadable(parts, boundary) && Undelimited(Items(parts), boundary) && Takes(accept, |parts|)
    requires Good(p, Joined(fragments) + missing, parts, boundary, n, phase)
    requires |missing| <= 2 && (|Joined(fragments) + missing| <= 2 ==> phase == Ended)
    ensures var (ok, q) := Feed(p, Opening(boundary), Delimiter(boundary), accept, fragments);
            ok && q.valid && Assembled(q.events) == Items(parts)
    decreases |fragments|
  {
    hide AllReadable, Undelimited, Takes, Opening, Delimiter, Assembled, Run;
    if fragments != [] {
      var next, rest := p.(live := p.live + fragments[0]), Joined(fragments[1..]) + missing;
      assert next.live + rest == p.live + (Joined(fragments) + missing) by {
        Append3(fragments[0], Joined(fragments[1..]), missing);
        Append3(p.live, fragments[0], rest);
      }
      assert Good(next, rest, parts, boundary, n, phase);
      var n', phase' := RunGood(next, rest, parts, boundary, n, phase, accept);
      var (ok, q) := Run(next, Opening(boundary), Delimiter(boundary), accept);
      FeedGood(q, fragments[1..], missing, parts, boundary, n', phase', accept);
    }
  }

  /** Whether the `len` bytes from `pos` on arrive in one fragment. */
  predicate Holds(fragments: seq<string>, pos: nat, len: nat)
    decreases |fragments|
  {
    fragments != [] &&
    if pos < |fragments[0]| then pos + len <= |fragments[0]| else Holds(fragments[1..], pos - |fragments[0]|, len)
  }

  /** The opening delimiter at the start of the body arrives in one fragment. */
  predicate OpensWhole(fragments: seq<string>, boundary: string) { Holds(fragments, 0, |Opening(boundary)|) }

  /** The parser behind the opening delimiter, when it is in the window. */
  lemma {:induction false} OpeningGood(live: string, rest: string, parts: seq<BodyPart>, boundary: string)
    returns (q: Parser)
    requires parts != [] && live + rest == BodyText(parts, boundary) && |live| >= |Opening(boundary)|
    ensures Good(q, rest, parts, boundary, 0, Fresh)
    ensures InitialTurn(INITIAL.(live := live), Opening(boundary)) == Continue(q)
  {
    hide LinesText, AfterLines;
    var o := Opening(boundary);
    var y := LinesText(parts[0].lines, 0) + (CRLF + AfterLines(parts, 0, boundary));
    Append3(DASH + boundary, CRLF, y);
    assert live + rest == o + y;
    assert live[..|o|] == (live + rest)[..|o|] == o;
    FindIs(live, o, 0);
    assert live[|o|..] + rest == (live + rest)[|o|..] == y;
    q := INITIAL.(live := live[|o|..], state := 1);
    assert Items(parts)[..0] == [];
  }

  /** The first fragments, up to one that is not empty; it holds the opening delimiter. */
  lemma {:induction false} FeedOpening(boundary: string, accept: Receiver, fragments: seq<string>)
    returns (live: string, more: seq<string>)
    requires OpensWhole(fragments, boundary)
    ensures live + Joined(more) == Joined(fragments) && |live| >= |Opening(boundary)| && |more| < |fragments|
    ensures Feed(INITIAL, Opening(boundary), Delimiter(boundary), accept, fragments)
            == Feed(INITIAL, Opening(boundary), Delimiter(boundary), accept, [live] + more)
    decreases |fragments|
  {
    hide Opening, Delimiter;
    if fragments[0] == "" {
      assert "" + "" == "" && INITIAL.(live := "") == INITIAL && "" + Joined(fragments[1..]) == Joined(fragments[1..]);
      live, more := FeedOpening(boundary, accept, fragments[1..]);
    } else {
      live, more := fragments[0], fragments[1..];
      assert fragments == [live] + more;
    }
  }

  /** However a body is cut, as long as the opening delimiter arrives whole, the parser accepts
      every fragment, ends valid, and reports exactly the items of its parts in order. The line
      break behind the closing delimiter may be missing. */
  lemma {:induction false} BodyRead(parts: seq<BodyPart>, boundary: string, accept: Receiver, fragments: seq<string>,
                                    missing: string)
    requires parts != [] && AllReadable(parts, boundary) && Undelimited(Items(parts), boundary)
    requires Takes(accept, |parts|)
    requires Joined(fragments) + missing == BodyText(parts, boundary) && |missing| <= 2
    requires OpensWhole(fragments, boundary)
    ensures var (ok, q) := Feed(INITIAL, Opening(boundary), Delimiter(boundary), accept, fragments);
            ok && q.valid && Assembled(q.events) == Items(parts)
  {
    hide Takes, AllReadable, Undelimited, Opening, Delimiter, Assembled, BodyText, Good;
    var o, d := Opening(boundary), Delimiter(boundary);
    var live, more := FeedOpening(boundary, accept, fragments);
    Append3(live, Joined(more), missing);
    var q := OpeningGood(live, Joined(more) + missing, parts, boundary);
    var n', phase' := RunGood(q, Joined(more) + missing, parts, boundary, 0, Fresh, accept);
    var (ok, r) := Run(q, o, d, accept);
    assert "" + live == live && ([live] + more)[1..] == more;
    assert Run(INITIAL.(live := live), o, d, accept) == (ok, r);
    FeedGood(r, more, missing, parts, boundary, n', phase', accept);
  }

  // ----------------------------------------------------- a line that stops the parser

  /** The parser stops at the `j`-th header line of part `m`: at a line it does not take, or at
      a first one that is too long. */
  ghost predicate StopsAt(parts: seq<BodyPart>, boundary: string, m: nat, j: nat) {
    && '\r' !in boundary && m < |parts| && j < |parts[m].lines|
    && (forall n :: 0 <= n < m ==> Readable(parts[n]) && Clean(parts[n].item.content, Delimiter(boundary)))
    && (forall i :: 0 <= i < j ==> Taken(parts[m].lines, i))
    && var line := parts[m].lines[j];
       '\r' !in line
       && ((line != "" && !PartHeader(line, FileAfter(parts[m].lines, j)).0) || (j == 0 && |line| > HEADER_MAX_LENGTH))
  }

  /** On the way to that line. */
  ghost predicate Before(p: Parser, rest: string, parts: seq<BodyPart>, boundary: string, m: nat, j: nat, n: nat,
                         phase: Phase) {
    Good(p, rest, parts, boundary, n, phase) && n <= m && phase != Ended
    && (n == m ==> !phase.Content? && (phase.Lines? ==> phase.j <= j))
  }

  lemma LinesSplit(lines: seq<string>, j: nat, after: string)
    requires j < |lines|
    ensures LinesText(lines, j) + after == lines[j] + CRLF + (LinesText(lines, j + 1) + after)
  {
    Append3(lines[j] + CRLF, LinesText(lines, j + 1), after);
  }

  lemma {:induction false} LinesStopped(p: Parser, rest: string, parts: seq<BodyPart>, boundary: string, m: nat,
                                        j: nat, i: nat, accept: Receiver)
    returns (phase': Phase)
    requires StopsAt(parts, boundary, m, j) && i <= j && Good(p, rest, parts, boundary, m, Lines(i))
    requires j == 0 ==> Find(p.live, CRLF) <= HEADER_MAX_LENGTH
    ensures var turn := LinesTurn(p, accept);
            turn.Return? && Assembled(turn.p.events) == Assembled(p.events)
            && (turn.ok ==> rest != "" && Before(turn.p, rest, parts, boundary, m, j, m, phase'))
    ensures i < j ==> Find(p.live, CRLF) <= HEADER_MAX_LENGTH
    decreases j - i
  {
    hide PartHeader, LinesTurn, AfterLines, Assembled, Readable, Clean;
    var lines, after := parts[m].lines, CRLF + AfterLines(parts, m, boundary);
    var line, y := lines[i], LinesText(lines, i + 1) + after;
    LinesSplit(lines, i, after);
    phase' := Lines(i);
    if i < j {
      assert Taken(lines, i);
      FieldLineRound(p, rest, line, y, FileAfter(lines, i + 1), accept);
      if |line| + 2 <= |p.live| {
        var q := p.(file := FileAfter(lines, i + 1), live := p.live[|line| + 2..]);
        phase' := LinesStopped(q, rest, parts, boundary, m, j, i + 1, accept);
      }
    } else {
      NoCrlfIn(line);
      WindowSearch(p.live, rest, line, CRLF, y);
      LinesStep(p, accept);
    }
  }

  lemma {:induction false} RoundStopped(p: Parser, rest: string, parts: seq<BodyPart>, boundary: string, m: nat,
                                        j: nat, n: nat, phase: Phase, accept: Receiver)
    returns (n': nat, phase': Phase)
    requires StopsAt(parts, boundary, m, j) && Takes(accept, |parts|) && p.live != ""
    requires Before(p, rest, parts, boundary, m, j, n, phase)
    ensures var turn := Round(p, Opening(boundary), Delimiter(boundary), accept);
            if turn.Continue? then Before(turn.p, rest, parts, boundary, m, j, n', phase')
            else if turn.ok then rest != "" && Before(turn.p, rest, parts, boundary, m, j, n', phase')
            else Assembled(turn.p.events) == Items(parts)[..m]
  {
    hide LinesTurn, BodyTurn, BoundaryTurn, Opening, Delimiter, Takes, Readable, Clean, Assembled, PartsTail,
         AfterLines, LinesText, PartHeader;
    if n == m && phase.Lines? {
      n', phase' := n, phase;
      if phase.j < j || Find(p.live, CRLF) <= HEADER_MAX_LENGTH || j > 0 {
        phase' := LinesStopped(p, rest, parts, boundary, m, j, phase.j, accept);
      }
    } else {
      hide Good;
      n', phase' := RoundGood(p, rest, parts, boundary, n, phase, accept);
    }
  }

  lemma {:induction false} RunStopped(p: Parser, rest: string, parts: seq<BodyPart>, boundary: string, m: nat, j: nat,
                                      n: nat, phase: Phase, accept: Receiver)
    returns (n': nat, phase': Phase)
    requires StopsAt(parts, boundary, m, j) && Takes(accept, |parts|)
    requires Before(p, rest, parts, boundary, m, j, n, phase)
    ensures var (ok, q) := Run(p, Opening(boundary), Delimiter(boundary), accept);
            if ok then rest != "" && Before(q, rest, parts, boundary, m, j, n', phase')
            else Assembled(q.events) == Items(parts)[..m]
    decreases |p.live|, if p.state == 1 then 1 else 0
  {
    hide Good, StopsAt, Takes, Assembled, Opening, Delimiter;
    n', phase' := n, phase;
    if p.live == "" {
      MoreToCome(p, rest, parts, boundary, n, phase);
    } else {
      n', phase' := RoundStopped(p, rest, parts, boundary, m, j, n, phase, accept);
      var turn := Round(p, Opening(boundary), Delimiter(boundary), accept);
      if turn.Continue? { n', phase' := RunStopped(turn.p, rest, parts, boundary, m, j, n', phase', accept); }
    }
  }

  lemma {:induction false} FeedStopped(p: Parser, fragments: seq<string>, parts: seq<BodyPart>, boundary: string,
                                       m: nat, j: nat, n: nat, phase: Phase, accept: Receiver)
    requires StopsAt(parts, boundary, m, j) && Takes(accept, |parts|)
    requires Before(p, Joined(fragments), parts, boundary, m, j, n, phase) && Joined(fragments) != ""
    ensures var (ok, q) := Feed(p, Opening(boundary), Delimiter(boundary), accept, fragments);
            !ok && Assembled(q.events) == Items(parts)[..m]
    decreases |fragments|
  {
    hide StopsAt, Takes, Opening, Delimiter, Assembled, Run;
    var next, rest := p.(live := p.live + fragments[0]), Joined(fragments[1..]);
    Append3(p.live, fragments[0], rest);
    assert next.live + rest == p.live + Joined(fragments);
    assert Good(next, rest, parts, boundary, n, phase);
    var n', phase' := RunStopped(next, rest, parts, boundary, m, j, n, phase, accept);
    var (ok, q) := Run(next, Opening(boundary), Delimiter(boundary), accept);
    if ok { FeedStopped(q, fragments[1..], parts, boundary, m, j, n', phase', accept); }
  }

  /** Such a body is refused, however it is cut, with exactly the parts before that line. */
  lemma {:induction false} BodyStopped(parts: seq<BodyPart>, boundary: string, m: nat, j: nat, accept: Receiver,
                                       fragments: seq<string>)
    requires StopsAt(parts, boundary, m, j) && Takes(accept, |parts|)
    requires Joined(fragments) == BodyText(parts, boundary) && OpensWhole(fragments, boundary)
    ensures var (ok, q) := Feed(INITIAL, Opening(boundary), Delimiter(boundary), accept, fragments);
            !ok && Assembled(q.events) == Items(parts)[..m]
  {
    hide Takes, Readable, Clean, Opening, Delimiter, Assembled, BodyText, Good;
    var o, d := Opening(boundary), Delimiter(boundary);
    var live, more := FeedOpening(boundary, accept, fragments);
    var q := OpeningGood(live, Joined(more), parts, boundary);
    var n', phase' := RunStopped(q, Joined(more), parts, boundary, m, j, 0, Fresh, accept);
    var (ok, r) := Run(q, o, d, accept);
    assert "" + live == live && ([live] + more)[1..] == more;
    assert Run(INITIAL.(live := live), o, d, accept) == (ok, r);
    if ok { FeedStopped(r, more, parts, boundary, m, j, n', phase', accept); }
  }
}
