/** The parser and its receiver, for any bytes at all: which calls it makes on, and what it
    does with bytes behind a delimiter that mean nothing. */
module MultipartCalls {
  import opened Bytes
  import Fields
  import opened PartHeaders
  import opened MultipartParser
  import opened MultipartBodies

  /** `q` was reached by calls that were all taken but perhaps the last, and the answer is no if
      that was refused. */
  ghost predicate Asked(p: Parser, q: Parser, ok: bool, accept: Receiver) {
    && |p.events| <= |q.events| && q.events[..|p.events|] == p.events
    && (forall k :: |p.events| < k < |q.events| ==> accept(q.events[..k]))
    && (|p.events| < |q.events| && !accept(q.events) ==> !ok && !q.valid)
  }

  lemma AskedTwice(p: Parser, q: Parser, r: Parser, ok: bool, accept: Receiver)
    requires Asked(p, q, true, accept) && Asked(q, r, ok, accept)
    ensures Asked(p, r, ok, accept)
  {
    assert r.events[..|p.events|] == r.events[..|q.events|][..|p.events|];
    forall k | |p.events| < k < |r.events| ensures accept(r.events[..k]) {
      if k <= |q.events| {
        assert r.events[..k] == r.events[..|q.events|][..k] == q.events[..k];
        assert k == |q.events| ==> q.events[..k] == q.events;
      }
    }
    if |r.events| == |q.events| { assert r.events == r.events[..|q.events|] == q.events; }
  }

  lemma NotAsked(p: Parser, q: Parser, ok: bool, accept: Receiver)
    requires q.events == p.events
    ensures Asked(p, q, ok, accept)
  {
    assert q.events[..|p.events|] == p.events;
  }

  lemma AskedOnce(p: Parser, q: Parser, e: Event, accept: Receiver)
    requires q.events == p.events + [e] && (accept(q.events) || !q.valid)
    ensures Asked(p, q, accept(q.events), accept)
  {
  }

  lemma {:induction false} LinesAsked(p: Parser, accept: Receiver)
    ensures var t := LinesTurn(p, accept); Asked(p, t.p, t.Continue? || t.ok, accept)
    decreases |p.live|
  {
    hide Asked, PartHeader, LinesTurn;
    var pos := Find(p.live, CRLF);
    LinesStep(p, accept);
    NotAsked(p, p, true, accept);
    if pos < |p.live| {
      var t := LineTurn(p, pos, accept);
      if pos == 0 { AskedOnce(p, t.p, Part(p.file), accept); } else { NotAsked(p, t.p, t.Continue?, accept); }
      if t.Continue? && t.p.state != 3 {
        LinesAsked(t.p, accept);
        var u := LinesTurn(t.p, accept);
        AskedTwice(p, t.p, u.p, u.Continue? || u.ok, accept);
      }
    }
  }

  lemma {:induction false} BodyAsked(p: Parser, d: string, accept: Receiver)
    requires d != ""
    ensures var t := BodyTurn(p, d, accept); Asked(p, t.p, t.Continue? || t.ok, accept)
  {
    hide Asked, Find;
    NotAsked(p, p, true, accept);
    var pos, t := Find(p.live, d), BodyTurn(p, d, accept);
    if |d| <= |p.live| && pos < |p.live| {
      AskedOnce(p, t.p, Data(p.live[..pos]), accept);
    } else if |d| < |p.live| {
      AskedOnce(p, t.p, Data(p.live[..|p.live| - |d|]), accept);
    }
  }

  lemma {:induction false} RoundAsked(p: Parser, o: string, d: string, accept: Receiver)
    requires o != "" && d != ""
    ensures var t := Round(p, o, d, accept); Asked(p, t.p, t.Continue? || t.ok, accept)
  {
    hide Asked, LinesTurn, BodyTurn, Find;
    var t := Round(p, o, d, accept);
    if p.state == 2 && Find(p.live, CRLF) <= Fields.HEADER_MAX_LENGTH {
      LinesAsked(p, accept);
    } else if p.state == 3 {
      BodyAsked(p, d, accept);
    } else {
      NotAsked(p, t.p, t.Continue? || t.ok, accept);
    }
  }

  lemma {:induction false} RunAsked(p: Parser, o: string, d: string, accept: Receiver)
    requires o != "" && d != ""
    ensures var (ok, q) := Run(p, o, d, accept); Asked(p, q, ok, accept)
    decreases |p.live|, if p.state == 1 then 1 else 0
  {
    hide Asked;
    NotAsked(p, p, true, accept);
    if p.live != "" {
      var t := Round(p, o, d, accept);
      RoundAsked(p, o, d, accept);
      if t.Continue? {
        RunAsked(t.p, o, d, accept);
        var (ok, q) := Run(t.p, o, d, accept);
        AskedTwice(p, t.p, q, ok, accept);
      }
    }
  }

  /** For any bytes and cuts: the calls made are those made before and new ones, the receiver
      took each new one but perhaps the last, and if it refused that, the answer is no, the
      parser is not valid, and nothing was called any more. */
  lemma {:induction false} EveryCallTaken(p: Parser, o: string, d: string, accept: Receiver, fragments: seq<string>)
    requires o != "" && d != ""
    ensures var (ok, q) := Feed(p, o, d, accept, fragments); Asked(p, q, ok, accept)
    decreases |fragments|
  {
    hide Asked, Run;
    NotAsked(p, p, true, accept);
    if fragments != [] {
      var next := p.(live := p.live + fragments[0]);
      var (ok, q) := Run(next, o, d, accept);
      NotAsked(p, next, true, accept);
      RunAsked(next, o, d, accept);
      AskedTwice(p, next, q, ok, accept);
      if ok {
        EveryCallTaken(q, o, d, accept, fragments[1..]);
        var (ok2, r) := Feed(q, o, d, accept, fragments[1..]);
        AskedTwice(p, q, r, ok2, accept);
      }
    }
  }

  /** Behind a delimiter, bytes that are neither a line break nor two dashes are accepted and
      kept for ever: nothing is called any more, and the parser does not become valid. */
  lemma {:induction false} StuckBehindDelimiter(p: Parser, o: string, d: string, accept: Receiver,
                                                fragments: seq<string>)
    requires o != "" && d != "" && p.state == 4 && |p.live| >= 2 && p.live[..2] != "\r\n" && p.live[..2] != "--"
    ensures Feed(p, o, d, accept, fragments) == (true, p.(live := p.live + Joined(fragments)))
    decreases |fragments|
  {
    if fragments == [] {
      assert p.live + "" == p.live;
    } else {
      var next := p.(live := p.live + fragments[0]);
      assert next.live[..2] == p.live[..2] && next.live[0..2] == next.live[..2];
      assert Run(next, o, d, accept) == (true, next);
      StuckBehindDelimiter(next, o, d, accept, fragments[1..]);
      Append3(p.live, fragments[0], Joined(fragments[1..]));
    }
  }
}
