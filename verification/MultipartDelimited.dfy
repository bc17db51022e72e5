/** A content that holds the delimiter is cut there: the parser that is in step with the body
    until then has a wrong part for good, and never gets the items back. */
module MultipartDelimited {
  import opened Bytes
  import opened PartHeaders
  import opened MultipartParser
  import opened MultipartSerializer
  import opened MultipartBodies
  import opened MultipartRoundTrip
  import opened MultipartPositions
  import opened MultipartLate

  /** The `m`-th content is the first to hold the delimiter, first at `e`. */
  ghost predicate CutAt(items: seq<MultipartFormData>, boundary: string, m: nat, e: nat) {
    && m < |items| && OccursAt(items[m].content, Delimiter(boundary), e)
    && (forall n :: 0 <= n < m ==> Clean(items[n].content, Delimiter(boundary)))
    && forall j: nat :: j < e ==> !OccursAt(items[m].content, Delimiter(boundary), j)
  }

  lemma {:induction false} FirstHolding(items: seq<MultipartFormData>, boundary: string, n: nat) returns (m: nat)
    requires n <= |items| && !Undelimited(items, boundary)
    requires forall i :: 0 <= i < n ==> Clean(items[i].content, Delimiter(boundary))
    ensures m < |items| && !Clean(items[m].content, Delimiter(boundary))
    ensures forall i :: 0 <= i < m ==> Clean(items[i].content, Delimiter(boundary))
    decreases |items| - n
  {
    hide Clean, Delimiter;
    m := n;
    if Clean(items[n].content, Delimiter(boundary)) { m := FirstHolding(items, boundary, n + 1); }
  }

  lemma {:induction false} FirstOccurrence(s: string, o: string, k: nat) returns (e: nat)
    requires OccursAt(s, o, k)
    ensures OccursAt(s, o, e) && forall j: nat :: j < e ==> !OccursAt(s, o, j)
    decreases k
  {
    hide OccursAt;
    e := k;
    if j: nat :| j < k && OccursAt(s, o, j) { e := FirstOccurrence(s, o, j); }
  }

  lemma {:induction false} CutSomewhere(items: seq<MultipartFormData>, boundary: string) returns (m: nat, e: nat)
    requires !Undelimited(items, boundary)
    ensures CutAt(items, boundary, m, e)
  {
    m := FirstHolding(items, boundary, 0);
    var k: nat :| OccursAt(items[m].content, Delimiter(boundary), k);
    e := FirstOccurrence(items[m].content, Delimiter(boundary), k);
  }

  lemma ContentCut(content: string, d: string, tail: string, k: nat, e: nat)
    requires d != "" && k <= e && OccursAt(content, d, e) && forall j: nat :: j < e ==> !OccursAt(content, d, j)
    ensures e + |d| <= |content|
    ensures content[k..] + d + tail == content[k..e] + d + (content[e + |d|..] + d + tail)
    ensures Clean(content[k..e], d)
  {
    assert content[k..] == content[k..e] + d + content[e + |d|..];
    forall j: nat ensures !OccursAt(content[k..e], d, j) {
      if j + |d| <= e - k {
        assert !OccursAt(content, d, k + j);
        assert content[k..e][j..j + |d|] == content[k + j..k + j + |d|];
      }
    }
  }

  lemma CutIsWrong(items: seq<MultipartFormData>, m: nat, e: nat)
    requires m < |items| && e < |items[m].content|
    ensures Wrong(items[..m] + [WithContent(items[m], items[m].content[..e])], false, items)
  {
    var parts := items[..m] + [WithContent(items[m], items[m].content[..e])];
    assert parts[m].content != items[m].content;
    assert WrongAt(parts, false, items, m);
  }

  lemma SameBytes(content: string, k: nat, e: nat, len: nat)
    requires k + len <= e <= |content|
    ensures content[k..][..len] == content[k..e][..len] && content[k + len..e] == content[k..e][len..]
  {
  }

  /** More content before the place where the delimiter is. */
  lemma {:induction false} DataCut(p: Parser, rest: string, items: seq<MultipartFormData>, boundary: string, m: nat,
                                   k: nat, e: nat)
    requires CutAt(items, boundary, m, e) && k <= e && Good(p, rest, Written(items), boundary, m, Content(k))
    requires |Delimiter(boundary)| <= |p.live| < e - k + |Delimiter(boundary)|
    ensures var len := |p.live| - |Delimiter(boundary)|;
            var q := p.(events := p.events + [Data(p.live[..len])], live := p.live[len..]);
            k + len <= e && Good(q, rest, Written(items), boundary, m, Content(k + len))
  {
    hide PartsTail, Assembled, Delimiter, Written, Items, OccursAt;
    WrittenItems(items);
    assert |Delimiter(boundary)| > 0 by { DelimiterDash(boundary); }
    var item, d, tail := items[m], Delimiter(boundary), PartsTail(Written(items), m + 1, boundary);
    var content, len := item.content, |p.live| - |d|;
    ContentCut(content, d, tail, k, e);
    var x, y := content[k..e], content[e + |d|..] + d + tail;
    PartialBody(p.live, rest, x, d, y);
    DataCollected(p.events, items[..m], item, k, len);
    SameBytes(content, k, e, len);
    ContentCut(content, d, tail, k + len, e);
  }

  /** A round in the content that holds the delimiter. */
  lemma {:induction false} BodyCut(p: Parser, rest: string, items: seq<MultipartFormData>, boundary: string, m: nat,
                                   k: nat, e: nat, accept: Receiver)
    returns (k': nat)
    requires '\r' !in boundary && CutAt(items, boundary, m, e) && k <= e
    requires Good(p, rest, Written(items), boundary, m, Content(k))
    ensures var turn := BodyTurn(p, Delimiter(boundary), accept);
            turn.Continue? || turn.ok ==>
              if turn.Continue? then Behindhand(turn.p, turn.p.live + rest, items, boundary)
              else k' <= e && Good(turn.p, rest, Written(items), boundary, m, Content(k'))
  {
    hide Delimiter, PartsTail, Assembled, Written, Items, Late, Wrong, Find, OccursAt;
    WrittenItems(items);
    var item, d, tail := items[m], Delimiter(boundary), PartsTail(Written(items), m + 1, boundary);
    var content := item.content;
    DelimiterStart(boundary);
    ContentCut(content, d, tail, k, e);
    var x, y := content[k..e], content[e + |d|..] + d + tail;
    WindowSearch(p.live, rest, x, d, y);
    k' := k;
    if |x| + |d| <= |p.live| {
      DataCollected(p.events, items[..m], item, k, |x|);
      assert content[k..][..|x|] == x;
      CutIsWrong(items, m, e);
    } else if |d| <= |p.live| {
      DataCut(p, rest, items, boundary, m, k, e);
      k' := k + (|p.live| - |d|);
    }
  }

  /** In step with the body up to the delimiter in the `m`-th content, or behind. */
  ghost predicate InStep(p: Parser, rest: string, items: seq<MultipartFormData>, boundary: string, m: nat, e: nat,
                         n: nat, phase: Phase) {
    Good(p, rest, Written(items), boundary, n, phase) && n <= m && phase != Ended
    && (n == m && phase.Content? ==> phase.k <= e)
  }

  lemma {:induction false} RoundCut(p: Parser, rest: string, items: seq<MultipartFormData>, boundary: string, m: nat,
                                    e: nat, n: nat, phase: Phase, accept: Receiver)
    returns (n': nat, phase': Phase)
    requires Writable(items, boundary) && Takes(accept, |items|) && p.live != ""
    requires CutAt(items, boundary, m, e) && InStep(p, rest, items, boundary, m, e, n, phase)
    ensures var turn := Round(p, Opening(boundary), Delimiter(boundary), accept);
            turn.Continue? || turn.ok ==>
              InStep(turn.p, rest, items, boundary, m, e, n', phase')
              || Behindhand(turn.p, turn.p.live + rest, items, boundary)
  {
    hide BodyTurn, HeadersTurn, InitialTurn, BoundaryTurn, Takes, WellFormed, Behindhand, Opening, Delimiter, Clean,
         OccursAt, Assembled, PartsTail, AfterLines, LinesText, FileAfter;
    if n == m && phase.Content? {
      var k' := BodyCut(p, rest, items, boundary, m, phase.k, e, accept);
      assert p.state == 3;
      n', phase' := m, Content(k');
    } else {
      hide Good, Readable;
      AllWrittenReadable(items, boundary);
      n', phase' := RoundGood(p, rest, Written(items), boundary, n, phase, accept);
    }
  }

  lemma {:induction false} RunCut(p: Parser, rest: string, items: seq<MultipartFormData>, boundary: string, m: nat,
                                  e: nat, n: nat, phase: Phase, accept: Receiver)
    returns (n': nat, phase': Phase)
    requires Writable(items, boundary) && Takes(accept, |items|)
    requires CutAt(items, boundary, m, e) && InStep(p, rest, items, boundary, m, e, n, phase)
    ensures var (ok, q) := Run(p, Opening(boundary), Delimiter(boundary), accept);
            ok ==> InStep(q, rest, items, boundary, m, e, n', phase') || Missed(q, q.live + rest, items, boundary)
    decreases |p.live|, if p.state == 1 then 1 else 0
  {
    hide InStep, Behindhand, Headless, Writable, Takes, CutAt, Opening, Delimiter;
    n', phase' := n, phase;
    if p.live != "" {
      n', phase' := RoundCut(p, rest, items, boundary, m, e, n, phase, accept);
      var turn := Round(p, Opening(boundary), Delimiter(boundary), accept);
      if turn.Continue? {
        if InStep(turn.p, rest, items, boundary, m, e, n', phase') {
          n', phase' := RunCut(turn.p, rest, items, boundary, m, e, n', phase', accept);
        } else {
          RunMissed(turn.p, rest, items, boundary, accept);
        }
      }
    }
  }

  /** In step so far, the parser has not reported everything. */
  lemma {:induction false} NotAllYet(p: Parser, rest: string, items: seq<MultipartFormData>, boundary: string, m: nat,
                                     e: nat, n: nat, phase: Phase)
    requires CutAt(items, boundary, m, e) && InStep(p, rest, items, boundary, m, e, n, phase)
    ensures Assembled(p.events) != items
  {
    hide Assembled, PartsTail, AfterLines, LinesText, FileAfter, Written, Items, Clean;
    WrittenItems(items);
    assert |Delimiter(boundary)| > 0;
    if phase.Content? && n == m {
      assert (items[..m] + [WithContent(items[m], items[m].content[..phase.k])])[m].content != items[m].content;
    }
  }

  lemma {:induction false} FeedCutShort(p: Parser, fragments: seq<string>, items: seq<MultipartFormData>,
                                        boundary: string, m: nat, e: nat, n: nat, phase: Phase, accept: Receiver)
    requires Writable(items, boundary) && Takes(accept, |items|)
    requires CutAt(items, boundary, m, e) && InStep(p, Joined(fragments), items, boundary, m, e, n, phase)
    ensures var (ok, q) := Feed(p, Opening(boundary), Delimiter(boundary), accept, fragments);
            ok ==> Assembled(q.events) != items
    decreases |fragments|
  {
    hide Writable, Takes, Missed, Opening, Delimiter, Assembled, Run, OccursAt, Clean;
    if fragments == [] {
      NotAllYet(p, "", items, boundary, m, e, n, phase);
    } else {
      var next, rest := p.(live := p.live + fragments[0]), Joined(fragments[1..]);
      Append3(p.live, fragments[0], rest);
      assert next.live + rest == p.live + Joined(fragments);
      assert Good(next, rest, Written(items), boundary, n, phase);
      var n', phase' := RunCut(next, rest, items, boundary, m, e, n, phase, accept);
      var (ok, q) := Run(next, Opening(boundary), Delimiter(boundary), accept);
      if ok {
        if InStep(q, rest, items, boundary, m, e, n', phase') {
          FeedCutShort(q, fragments[1..], items, boundary, m, e, n', phase', accept);
        } else {
          FeedMissed(q, fragments[1..], items, boundary, accept);
        }
      }
    }
  }

  /** A body in which a content holds the delimiter never gives its items back, even if its
      opening arrives whole. */
  lemma {:induction false} DelimitedLost(items: seq<MultipartFormData>, boundary: string, accept: Receiver,
                                         fragments: seq<string>)
    requires Writable(items, boundary) && Takes(accept, |items|) && !Undelimited(items, boundary)
    requires Joined(fragments) == Serialized(items, boundary, true) && OpensWhole(fragments, boundary)
    ensures var (ok, q) := Feed(INITIAL, Opening(boundary), Delimiter(boundary), accept, fragments);
            ok ==> Assembled(q.events) != items
  {
    hide Writable, Takes, Opening, Delimiter, Assembled, Serialized, Undelimited, Good, Missed, OccursAt, Clean,
         BodyText, Written, OpensWhole;
    var o, d := Opening(boundary), Delimiter(boundary);
    var m, e := CutSomewhere(items, boundary);
    var live, more := FeedOpening(boundary, accept, fragments);
    WrittenBody(items, boundary);
    var q := OpeningGood(live, Joined(more), Written(items), boundary);
    var n', phase' := RunCut(q, Joined(more), items, boundary, m, e, 0, Fresh, accept);
    var (ok, r) := Run(q, o, d, accept);
    assert "" + live == live && ([live] + more)[1..] == more;
    assert Run(INITIAL.(live := live), o, d, accept) == (ok, r);
    if ok {
      if InStep(r, Joined(more), items, boundary, m, e, n', phase') {
        FeedCutShort(r, more, items, boundary, m, e, n', phase', accept);
      } else {
        FeedMissed(r, more, items, boundary, accept);
      }
    }
  }
}
