/** A parser that started later in the body than at the opening delimiter: every part begins
    later than the item it would have to be, up to the last, which then has no delimiter to
    end it. So the parser never gets the items back. */
module MultipartLate {
  import opened Bytes
  import opened Fields
  import opened PartHeaders
  import opened MultipartParser
  import opened MultipartSerializer
  import opened MultipartBodies
  import opened MultipartRoundTrip
  import opened MultipartPositions

  // ------------------------------------------------------------ parts that are wrong

  /** The `l`-th part is not the `l`-th item, and will not become it. */
  predicate WrongAt(parts: seq<MultipartFormData>, open: bool, items: seq<MultipartFormData>, l: nat)
    requires l < |parts|
  {
    l >= |items| || WithContent(parts[l], "") != WithContent(items[l], "")
    || (parts[l].content != items[l].content && !(open && l == |parts| - 1))
  }

  /** Some part is wrong for good; the content of the last may still grow while it is `open`. */
  ghost predicate Wrong(parts: seq<MultipartFormData>, open: bool, items: seq<MultipartFormData>) {
    exists l :: 0 <= l < |parts| && WrongAt(parts, open, items, l)
  }

  lemma WrongClosed(parts: seq<MultipartFormData>, items: seq<MultipartFormData>)
    requires Wrong(parts, true, items)
    ensures Wrong(parts, false, items) && parts != items
  {
    var l :| 0 <= l < |parts| && WrongAt(parts, true, items, l);
    assert WrongAt(parts, false, items, l);
  }

  lemma WrongPart(events: seq<Event>, file: MultipartFormData, items: seq<MultipartFormData>)
    requires Wrong(Assembled(events), false, items)
    ensures Wrong(Assembled(events + [Part(file)]), true, items)
  {
    AssembledNext(events, Part(file));
    var parts := Assembled(events);
    var l :| 0 <= l < |parts| && WrongAt(parts, false, items, l);
    assert WrongAt(parts + [file], true, items, l);
  }

  lemma WrongData(events: seq<Event>, bytes: string, items: seq<MultipartFormData>)
    requires Wrong(Assembled(events), true, items)
    ensures Wrong(Assembled(events + [Data(bytes)]), true, items)
  {
    AssembledNext(events, Data(bytes));
    var parts, next := Assembled(events), Assembled(events + [Data(bytes)]);
    var l :| 0 <= l < |parts| && WrongAt(parts, true, items, l);
    assert WithContent(next[l], "") == WithContent(parts[l], "");
    assert WrongAt(next, true, items, l);
  }

  // ------------------------------------------------------------------ being late

  /** The parser stands later in the body than it should with the parts it has announced.
      What it still has to read is `all`, the end of the body `s`. */
  ghost predicate Late(p: Parser, all: string, s: string, items: seq<MultipartFormData>, boundary: string) {
    var n := |Assembled(p.events)|;
    if p.state == 1 || p.state == 2 then
      n < |items| && EndsIn(s, CRLF + all) && |all| + |boundary| + 4 <= Left(items, n, boundary)
      && (p.state == 2 ==> p.file.content == "")
    else if p.state == 3 then
      0 < n <= |items|
      && var content := Assembled(p.events)[n - 1].content;
         EndsIn(s, CRLF + CRLF + content + all)
         && |all| + |content| + |boundary| + 6 <= Left(items, n - 1, boundary)
         && (content != "" ==> |p.live| >= |Delimiter(boundary)|)
    else
      p.state == 4 && n < |items| && EndsIn(s, all) && |all| + |boundary| + 2 <= Left(items, n, boundary)
  }

  ghost predicate Behindhand(p: Parser, all: string, items: seq<MultipartFormData>, boundary: string) {
    1 <= p.state <= 4
    && (Wrong(Assembled(p.events), p.state == 3, items)
        || Late(p, all, Serialized(items, boundary, true), items, boundary))
  }

  /** After a turn of the parser, unless it refuses. */
  ghost predicate Still(turn: Turn, rest: string, items: seq<MultipartFormData>, boundary: string) {
    turn.Continue? || turn.ok ==> Behindhand(turn.p, turn.p.live + rest, items, boundary)
  }

  lemma {:induction false} PartHeaderKeepsContent(header: string, file: MultipartFormData)
    ensures PartHeader(header, file).1.content == file.content
  {
    hide ParsedHeader, StartsWithIgnoreCase, Trimmed, DispositionTail, DispositionParams, Lookup, ExtendedFilename;
  }

  lemma {:induction false} FieldLate(p: Parser, all: string, q: Parser, line: string, more: string, s: string,
                                     items: seq<MultipartFormData>, boundary: string)
    requires p.state == 2 && Late(p, all, s, items, boundary) && all == line + CRLF + more
    requires q.state == 2 && q.events == p.events && q.file.content == ""
    ensures Late(q, more, s, items, boundary)
  {
    hide EndsIn, Left, Assembled;
    Append3(CRLF, line + CRLF, more);
    Append3(CRLF, line, CRLF);
    Append3(CRLF + line, CRLF, more);
    EndsInPart(s, CRLF + line, CRLF + more);
  }

  lemma {:induction false} BlankLate(p: Parser, all: string, q: Parser, more: string, s: string,
                                     items: seq<MultipartFormData>, boundary: string)
    requires p.state == 2 && Late(p, all, s, items, boundary) && all == CRLF + more
    requires q.state == 3 && q.events == p.events + [Part(p.file)]
    ensures Late(q, more, s, items, boundary)
  {
    hide EndsIn, Left, Assembled;
    AssembledNext(p.events, Part(p.file));
    assert CRLF + CRLF + "" + more == CRLF + all;
  }

  lemma LateFile(p: Parser, all: string, s: string, items: seq<MultipartFormData>, boundary: string)
    requires p.state == 2 && Late(p, all, s, items, boundary)
    ensures p.file.content == ""
  {
  }

  /** One header line, or the empty line that announces a part. */
  lemma {:induction false} LineLate(p: Parser, rest: string, items: seq<MultipartFormData>, boundary: string,
                                    pos: nat, accept: Receiver)
    requires p.state == 2 && Behindhand(p, p.live + rest, items, boundary) && OccursAt(p.live, CRLF, pos)
    ensures var turn := LineTurn(p, pos, accept);
            (turn.Return? ==> !turn.ok) && Still(turn, rest, items, boundary)
  {
    hide PartHeader, Serialized, Late, Wrong, Assembled;
    var s, all := Serialized(items, boundary, true), p.live + rest;
    var turn := LineTurn(p, pos, accept);
    if turn.Continue? {
      var line, more := p.live[..pos], turn.p.live + rest;
      assert all == line + CRLF + more;
      if pos > 0 {
        PartHeaderKeepsContent(line, p.file);
        if Late(p, all, s, items, boundary) {
          assert p.file.content == "" by { LateFile(p, all, s, items, boundary); }
          FieldLate(p, all, turn.p, line, more, s, items, boundary);
        }
      } else {
        assert all == CRLF + more;
        if Wrong(Assembled(p.events), false, items) { WrongPart(p.events, p.file, items); }
        if Late(p, all, s, items, boundary) { BlankLate(p, all, turn.p, more, s, items, boundary); }
      }
    }
  }

  lemma {:induction false} LinesLate(p: Parser, rest: string, items: seq<MultipartFormData>, boundary: string,
                                     accept: Receiver)
    requires p.state == 2 && Behindhand(p, p.live + rest, items, boundary)
    ensures Still(LinesTurn(p, accept), rest, items, boundary)
    decreases |p.live|
  {
    hide LineTurn, Behindhand;
    var pos := Find(p.live, CRLF);
    if pos < |p.live| {
      LineLate(p, rest, items, boundary, pos, accept);
      var turn := LineTurn(p, pos, accept);
      if turn.Continue? && turn.p.state != 3 { LinesLate(turn.p, rest, items, boundary, accept); }
    }
  }

  lemma WritableAt(items: seq<MultipartFormData>, n: nat, boundary: string)
    requires Writable(items, boundary) && n < |items|
    ensures WritableHeaders(items[n])
  {
    assert WellFormed(items[n]);
  }

  lemma StartsAtSuffix(t: string, d: string, more: string, k: nat)
    requires k <= |t| && t[k..] == d + more
    ensures OccursAt(t, d, k)
  {
    assert t[k..k + |d|] == t[k..][..|d|] == d;
  }

  /** A part that ends at a delimiter with the content of its item, but late: the delimiter is
      a later one, so the parser is late for the next item, of which there is one. */
  lemma {:induction false} DelimiterLate(items: seq<MultipartFormData>, n: nat, boundary: string, all: string,
                                         content: string, x: string, more: string)
    requires Writable(items, boundary) && 0 < n <= |items|
    requires EndsIn(Serialized(items, boundary, true), all) && all == x + Delimiter(boundary) + more
    requires |all| + |content| + |boundary| + 6 <= Left(items, n - 1, boundary)
    requires content + x == items[n - 1].content
    ensures n < |items| && EndsIn(Serialized(items, boundary, true), more)
            && |more| + |boundary| + 2 <= Left(items, n, boundary)
  {
    hide Serialized, Left, EndsIn, Delimiter, FromDelimiter, WellFormed;
    var s, d, t := Serialized(items, boundary, true), Delimiter(boundary), FromDelimiter(items, n, boundary);
    TailEndsIn(items, n - 1, boundary);
    Append3(x, d, more);
    EndsInPart(s, x, d + more);
    EndsInPart(s, d, more);
    assert |content| + |x| == |items[n - 1].content|;
    var k := |t| - |d + more|;
    EndsInTwo(s, t, d + more, k);
    StartsAtSuffix(t, d, more, k);
    if n < |items| { assert WritableHeaders(items[n]) by { WritableAt(items, n, boundary); } }
    NextDelimiter(items, n, boundary, k);
  }

  /** More content before a delimiter that is not there yet. */
  lemma {:induction false} DataLate(p: Parser, all: string, q: Parser, x: string, more: string, s: string,
                                    items: seq<MultipartFormData>, boundary: string)
    requires p.state == 3 && Late(p, all, s, items, boundary) && all == x + more
    requires q.state == 3 && q.events == p.events + [Data(x)] && |q.live| >= |Delimiter(boundary)|
    ensures Late(q, more, s, items, boundary)
  {
    hide EndsIn, Left, Assembled, Delimiter;
    AssembledNext(p.events, Data(x));
    var parts := Assembled(p.events);
    var content := parts[|parts| - 1].content;
    Append3(CRLF + CRLF + content, x, more);
    Append3(CRLF + CRLF, content, x);
    assert |all| == |x| + |more| && |content + x| == |content| + |x|;
  }

  lemma {:induction false} FoundLate(p: Parser, all: string, q: Parser, x: string, more: string,
                                     items: seq<MultipartFormData>, boundary: string)
    requires Writable(items, boundary) && p.state == 3
    requires Late(p, all, Serialized(items, boundary, true), items, boundary)
    requires all == x + Delimiter(boundary) + more && q.state == 4 && q.events == p.events + [Data(x)]
    ensures Behindhand(q, more, items, boundary)
  {
    hide EndsIn, Left, Assembled, Delimiter, Serialized, Writable;
    AssembledNext(p.events, Data(x));
    var s, parts, next := Serialized(items, boundary, true), Assembled(p.events), Assembled(q.events);
    var n := |parts|;
    var content := parts[n - 1].content;
    if content + x == items[n - 1].content {
      EndsInPart(s, CRLF + CRLF + content, all);
      DelimiterLate(items, n, boundary, all, content, x, more);
    } else {
      assert WrongAt(next, false, items, n - 1);
    }
  }

  lemma AroundDelimiter(live: string, rest: string, d: string, pos: nat)
    requires OccursAt(live, d, pos)
    ensures live + rest == live[..pos] + d + (live[pos + |d|..] + rest)
  {
    assert live == live[..pos] + d + live[pos + |d|..];
  }

  lemma {:induction false} BodyLate(p: Parser, rest: string, items: seq<MultipartFormData>, boundary: string,
                                    accept: Receiver)
    requires Writable(items, boundary) && p.state == 3 && Behindhand(p, p.live + rest, items, boundary)
    ensures Still(BodyTurn(p, Delimiter(boundary), accept), rest, items, boundary)
  {
    hide Delimiter, Serialized, Writable, Late, Wrong, Assembled, Find;
    var s, d, all := Serialized(items, boundary, true), Delimiter(boundary), p.live + rest;
    var turn, pos := BodyTurn(p, d, accept), Find(p.live, d);
    var late, wrong := Late(p, all, s, items, boundary), Wrong(Assembled(p.events), true, items);
    if |d| <= |p.live| && pos < |p.live| {
      var x, more := p.live[..pos], p.live[pos + |d|..] + rest;
      if turn.Continue? {
        assert all == x + d + more by { AroundDelimiter(p.live, rest, d, pos); }
        if wrong {
          WrongData(p.events, x, items);
          WrongClosed(Assembled(turn.p.events), items);
        } else {
          FoundLate(p, all, turn.p, x, more, items, boundary);
        }
      }
    } else if |d| < |p.live| {
      var len := |p.live| - |d|;
      var x, more := p.live[..len], p.live[len..] + rest;
      if turn.ok {
        assert all == x + more;
        if wrong { WrongData(p.events, x, items); } else { DataLate(p, all, turn.p, x, more, s, items, boundary); }
      }
    }
  }

  lemma {:induction false} BoundaryLate(p: Parser, rest: string, items: seq<MultipartFormData>, boundary: string)
    requires p.state == 4 && Behindhand(p, p.live + rest, items, boundary)
    ensures Still(BoundaryTurn(p), rest, items, boundary)
  {
    hide Serialized, Wrong, Assembled, EndsIn, Left;
    var s, all := Serialized(items, boundary, true), p.live + rest;
    var turn := BoundaryTurn(p);
    if turn.Continue? && Late(p, all, s, items, boundary) {
      if turn.p.state == 1 {
        assert p.live == CRLF + p.live[2..];
        assert all == CRLF + (p.live[2..] + rest);
      } else {
        assert "" + rest == rest;
        EndsInPart(s, p.live, rest);
      }
    }
  }

  lemma {:induction false} RoundLate(p: Parser, rest: string, items: seq<MultipartFormData>, boundary: string,
                                     accept: Receiver)
    requires Writable(items, boundary) && Behindhand(p, p.live + rest, items, boundary)
    ensures Still(Round(p, Opening(boundary), Delimiter(boundary), accept), rest, items, boundary)
  {
    hide LinesTurn, BodyTurn, BoundaryTurn, Delimiter, Opening, Serialized, Writable, Wrong, Assembled;
    hide EndsIn, Left;
    match p.state
    case 1 =>
    case 2 => LinesLate(p, rest, items, boundary, accept);
    case 3 => BodyLate(p, rest, items, boundary, accept);
    case _ => BoundaryLate(p, rest, items, boundary);
  }

  // ------------------------------------------------ started inside a header line

  /** The parser took the end of a header line of the first item for the opening: it has not
      announced a part yet, and the one it is about to announce misses the name and the file
      name, or the content type. */
  ghost predicate Headless(p: Parser, all: string, items: seq<MultipartFormData>, boundary: string) {
    items != [] && (p.state == 1 || p.state == 2) && p.events == []
    && var item, blank := items[0], CRLF + AfterHeaders(items, 0, boundary);
       ((item.name != "" || item.filename != "") && (p.state == 2 ==> p.file.name == "" && p.file.filename == "")
        && (all == blank || (item.contentType != "" && all == ContentTypeLine(item) + CRLF + blank)))
       || (item.contentType != "" && (p.state == 2 ==> p.file.contentType == "") && all == blank)
  }

  lemma {:induction false} HeadlessBlank(p: Parser, rest: string, items: seq<MultipartFormData>, boundary: string,
                                         accept: Receiver)
    requires p.state == 2 && Headless(p, p.live + rest, items, boundary)
    requires p.live + rest == CRLF + AfterHeaders(items, 0, boundary)
    ensures var turn := LinesTurn(p, accept);
            if turn.Return? then turn.ok ==> turn.p == p else Behindhand(turn.p, turn.p.live + rest, items, boundary)
  {
    hide AfterHeaders, ContentTypeLine, PartHeader, Late, OccursAt;
    var after := AfterHeaders(items, 0, boundary);
    assert "" + CRLF + after == CRLF + after;
    NoCrlfIn("");
    WindowSearch(p.live, rest, "", CRLF, after);
    var called := p.events + [Part(p.file)];
    AssembledNext(p.events, Part(p.file));
    assert Assembled([]) == [];
    assert Assembled(called) == [p.file];
    assert WrongAt([p.file], true, items, 0);
    assert Wrong([p.file], true, items);
  }

  lemma {:induction false} HeadlessLines(p: Parser, rest: string, items: seq<MultipartFormData>, boundary: string,
                                         accept: Receiver)
    requires Writable(items, boundary) && p.state == 2 && Headless(p, p.live + rest, items, boundary)
    ensures var turn := LinesTurn(p, accept);
            if turn.Return? then turn.ok ==> Headless(turn.p, turn.p.live + rest, items, boundary)
            else Behindhand(turn.p, turn.p.live + rest, items, boundary)
  {
    hide AfterHeaders, ContentTypeLine, PartHeader, LinesTurn, Behindhand, WellFormed, WritableHeaders;
    var item, blank := items[0], CRLF + AfterHeaders(items, 0, boundary);
    if p.live + rest == blank {
      HeadlessBlank(p, rest, items, boundary, accept);
    } else {
      var line := ContentTypeLine(item);
      assert WritableHeaders(item) by { WritableAt(items, 0, boundary); }
      DispositionLineClean(item);
      ReadContentType(item, p.file);
      var file := p.file.(contentType := item.contentType);
      FieldLineRound(p, rest, line, blank, file, accept);
      if |line| + 2 <= |p.live| {
        HeadlessBlank(p.(file := file, live := p.live[|line| + 2..]), rest, items, boundary, accept);
      }
    }
  }

  // ------------------------------------------------------------------- whole runs

  ghost predicate Missed(p: Parser, all: string, items: seq<MultipartFormData>, boundary: string) {
    Headless(p, all, items, boundary) || Behindhand(p, all, items, boundary)
  }

  lemma {:induction false} RoundMissed(p: Parser, rest: string, items: seq<MultipartFormData>, boundary: string,
                                       accept: Receiver)
    requires Writable(items, boundary) && Missed(p, p.live + rest, items, boundary)
    ensures var turn := Round(p, Opening(boundary), Delimiter(boundary), accept);
            turn.Continue? || turn.ok ==> Missed(turn.p, turn.p.live + rest, items, boundary)
  {
    hide LinesTurn, BodyTurn, BoundaryTurn, Delimiter, Opening, Writable, Behindhand, AfterHeaders;
    hide ContentTypeLine;
    if Behindhand(p, p.live + rest, items, boundary) {
      RoundLate(p, rest, items, boundary, accept);
    } else if p.state == 2 {
      HeadlessLines(p, rest, items, boundary, accept);
    }
  }

  lemma {:induction false} RunMissed(p: Parser, rest: string, items: seq<MultipartFormData>, boundary: string,
                                     accept: Receiver)
    requires Writable(items, boundary) && Missed(p, p.live + rest, items, boundary)
    ensures var (ok, q) := Run(p, Opening(boundary), Delimiter(boundary), accept);
            ok ==> Missed(q, q.live + rest, items, boundary)
    decreases |p.live|, if p.state == 1 then 1 else 0
  {
    hide Missed, Writable, Opening, Delimiter;
    if p.live != "" {
      RoundMissed(p, rest, items, boundary, accept);
      var turn := Round(p, Opening(boundary), Delimiter(boundary), accept);
      if turn.Continue? { RunMissed(turn.p, rest, items, boundary, accept); }
    }
  }

  lemma EndsInDashes(s: string, live: string)
    requires |live| <= 2
    ensures !(EndsIn(s, CRLF + CRLF + "" + live) && EndsIn(s, DASH + CRLF))
  {
    var t := CRLF + CRLF + "" + live;
    if EndsIn(s, DASH + CRLF) && |t| <= |s| {
      assert s[|s| - 4..][0] == '-';
      assert s[|s| - |t|..][|live|] == s[|s| - 4];
      assert t[|live|] != '-';
    }
  }

  /** The last part cannot be complete: there is no delimiter left for it, and what is left of
      the body is too short to hold it up to its end. */
  lemma {:induction false} LastIsShort(q: Parser, items: seq<MultipartFormData>, boundary: string)
    requires items != [] && q.state == 3
    requires Late(q, q.live, Serialized(items, boundary, true), items, boundary)
    ensures Assembled(q.events) != items
  {
    hide Assembled, Serialized, AfterHeaders, EndsIn;
    var s, m := Serialized(items, boundary, true), |items|;
    var parts := Assembled(q.events);
    if |parts| == m {
      var content := parts[m - 1].content;
      TailEndsIn(items, m - 1, boundary);
      TailEndsIn(items, m, boundary);
      if content == items[m - 1].content {
        assert |q.live| <= 2;
        assert content == "";
        EndsInDashes(s, q.live);
      }
    }
  }

  lemma FewParts(q: Parser, items: seq<MultipartFormData>, boundary: string)
    requires q.state != 3 && Late(q, q.live, Serialized(items, boundary, true), items, boundary)
    ensures |Assembled(q.events)| < |items|
  {
  }

  lemma {:induction false} NeverAll(q: Parser, items: seq<MultipartFormData>, boundary: string)
    requires items != [] && Missed(q, q.live, items, boundary)
    ensures Assembled(q.events) != items
  {
    hide Late, Serialized, AfterHeaders, ContentTypeLine;
    var parts := Assembled(q.events);
    if Wrong(parts, q.state == 3, items) {
      var l :| 0 <= l < |parts| && WrongAt(parts, q.state == 3, items, l);
    } else if Behindhand(q, q.live, items, boundary) {
      if q.state == 3 { LastIsShort(q, items, boundary); } else { FewParts(q, items, boundary); }
    }
  }

  /** More bytes in the window change nothing. */
  lemma {:induction false} MissedMore(p: Parser, next: Parser, all: string, items: seq<MultipartFormData>,
                                      boundary: string)
    requires Missed(p, all, items, boundary) && next == p.(live := next.live) && |next.live| >= |p.live|
    ensures Missed(next, all, items, boundary)
  {
    hide EndsIn, Serialized, AfterHeaders, ContentTypeLine, Assembled, Delimiter;
  }

  lemma {:induction false} FeedMissed(p: Parser, fragments: seq<string>, items: seq<MultipartFormData>,
                                      boundary: string, accept: Receiver)
    requires items != [] && Writable(items, boundary) && Missed(p, p.live + Joined(fragments), items, boundary)
    ensures var (ok, q) := Feed(p, Opening(boundary), Delimiter(boundary), accept, fragments);
            ok ==> Assembled(q.events) != items
    decreases |fragments|
  {
    hide Missed, Opening, Delimiter, Run, WellFormed, Assembled;
    if fragments == [] {
      assert p.live + "" == p.live;
      NeverAll(p, items, boundary);
    } else {
      var next, rest := p.(live := p.live + fragments[0]), Joined(fragments[1..]);
      Append3(p.live, fragments[0], rest);
      MissedMore(p, next, p.live + Joined(fragments), items, boundary);
      RunMissed(next, rest, items, boundary, accept);
      var (ok, q) := Run(next, Opening(boundary), Delimiter(boundary), accept);
      if ok { FeedMissed(q, fragments[1..], items, boundary, accept); }
    }
  }
}
