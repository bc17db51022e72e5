/** What the body state of the parser hands over, on arbitrary text. */
module MultipartSearch {
  import opened Bytes
  import opened MultipartParser
  import opened MultipartBodies

  // --------------------------------------------------- streaming delimiter search

  /** All content bytes handed over by these calls. */
  function Delivered(events: seq<Event>): string {
    if events == [] then ""
    else
      var n := |events| - 1;
      Delivered(events[..n]) + if events[n].Data? then events[n].bytes else ""
  }

  lemma DeliveredNext(events: seq<Event>, bytes: string)
    ensures Delivered(events + [Data(bytes)]) == Delivered(events) + bytes
  {
    var all := events + [Data(bytes)];
    assert all[..|all| - 1] == events;
  }

  /** The fragments as far as the body state takes them: whether the calls were accepted, the
      parser as that state leaves it, and the fragments behind the one with the delimiter. */
  function BodyFeed(p: Parser, d: string, accept: Receiver, fragments: seq<string>): (bool, Parser, seq<string>)
    requires d != ""
    decreases |fragments|
  {
    if fragments == [] then (true, p, [])
    else match BodyTurn(p.(live := p.live + fragments[0]), d, accept)
      case Return(ok, q) => if ok then BodyFeed(q, d, accept, fragments[1..]) else (false, q, [])
      case Continue(q) => (true, q, fragments[1..])
  }

  /** While the body state lasts, this is what a sequence of calls does; behind the delimiter
      the call goes on with what it left. */
  lemma {:induction false} FeedIsBodyFeed(p: Parser, o: string, d: string, accept: Receiver, fragments: seq<string>)
    requires o != "" && d != "" && p.state == 3
    ensures var (ok, q, rest) := BodyFeed(p, d, accept, fragments);
            Feed(p, o, d, accept, fragments) ==
            if !ok || q.state == 3 then (ok, q)
            else
              var (more, r) := Run(q, o, d, accept);
              if more then Feed(r, o, d, accept, rest) else (false, r)
    decreases |fragments|
  {
    hide BodyTurn;
    if fragments != [] {
      var next := p.(live := p.live + fragments[0]);
      StaysInBody(next, d, accept);
      var turn := BodyTurn(next, d, accept);
      assert Round(next, o, d, accept) == turn;
      if next.live == "" { EmptyTurn(next, d, accept); }
      if turn.Return? && turn.ok { FeedIsBodyFeed(turn.p, o, d, accept, fragments[1..]); }
    }
  }

  lemma StaysInBody(p: Parser, d: string, accept: Receiver)
    requires d != "" && p.state == 3
    ensures var turn := BodyTurn(p, d, accept); turn.p.state == if turn.Return? then 3 else 4
  {
  }

  lemma EmptyTurn(p: Parser, d: string, accept: Receiver)
    requires d != "" && p.live == ""
    ensures BodyTurn(p, d, accept) == Return(true, p)
  {
  }

  /** Bytes `out` already handed over and the window `live` behind them: nothing handed
      over belongs to an occurrence, because a whole delimiter is held back. */
  ghost predicate Searching(out: string, live: string, d: string) {
    (out == "" || |d| <= |live|) && forall j: nat :: j < |out| ==> !OccursAt(out + live, d, j)
  }

  /** An occurrence that starts in `out` would lie inside the part already searched. */
  lemma SearchedStays(out: string, live: string, d: string, more: string)
    requires Searching(out, live, d)
    ensures forall j: nat :: j < |out| ==> !OccursAt(out + (live + more), d, j)
  {
    var old_, all := out + live, out + (live + more);
    forall j: nat | j < |out| ensures !OccursAt(all, d, j) {
      assert !OccursAt(old_, d, j) && j + |d| <= |old_|;
      assert all[j..j + |d|] == old_[j..j + |d|];
    }
  }

  lemma FindBehind(out: string, live: string, d: string)
    requires d != "" && forall j: nat :: j < |out| ==> !OccursAt(out + live, d, j)
    ensures Find(out + live, d) == |out| + Find(live, d)
  {
    var all, k := out + live, Find(live, d);
    forall j: nat | j <= |live| ensures OccursAt(all, d, |out| + j) <==> OccursAt(live, d, j) {
      if j + |d| <= |live| { assert all[|out| + j..|out| + j + |d|] == live[j..j + |d|]; }
    }
    forall j: nat | |out| <= j < |out| + k ensures !OccursAt(all, d, j) {
      assert !OccursAt(live, d, j - |out|) && j == |out| + (j - |out|);
    }
    if k < |live| { FindIs(all, d, |out| + k); } else { FindNone(all, d); }
  }

  /** The delimiter in the window: what is before it is handed over, and the text behind it
      is kept, unless the receiver refuses. */
  lemma {:induction false} BodyFound(p: Parser, d: string, accept: Receiver)
    requires d != "" && p.state == 3 && Find(p.live, d) < |p.live|
    ensures var turn, k := BodyTurn(p, d, accept), Find(p.live, d);
            (turn.Return? ==> !turn.ok && !accept(turn.p.events))
            && (turn.Continue? ==> turn.p.state == 4 && turn.p.live == p.live[k + |d|..])
            && Delivered(turn.p.events) == Delivered(p.events) + p.live[..k]
  {
    hide Delivered;
    DeliveredNext(p.events, p.live[..Find(p.live, d)]);
  }

  /** No delimiter in the window: all of it is handed over but for one delimiter's length. */
  lemma BodyMissing(p: Parser, d: string, accept: Receiver, out: string) returns (got: string)
    requires d != "" && p.state == 3 && Find(p.live, d) == |p.live|
    requires Find(out + p.live, d) == |out + p.live|
    requires out == "" || |d| <= |p.live|
    ensures var turn := BodyTurn(p, d, accept);
            turn.Return? && turn.p.state == 3
            && (!turn.ok ==> !accept(turn.p.events))
            && (turn.ok ==> |turn.p.live| <= |d| && got + turn.p.live == p.live && Searching(out + got, turn.p.live, d)
                            && Delivered(turn.p.events) == Delivered(p.events) + got)
  {
    var len := if |d| > |p.live| then 0 else |p.live| - |d|;
    got := p.live[..len];
    if len > 0 { DeliveredNext(p.events, got); }
    assert p.live[..len] + p.live[len..] == p.live;
    Append3(out, got, p.live[len..]);
  }

  /** The search over a whole run of calls. With the text `s` received so far, the bytes
      handed over are the prefix before the first delimiter, if there is one, and the bytes
      behind that delimiter are still to be read; otherwise everything has been handed over
      but a window of at most one delimiter's length. */
  ghost predicate Searched(q: Parser, rest: seq<string>, base: string, s: string, d: string)
    requires d != ""
  {
    var k := Find(s, d);
    if k < |s| then
      q.state == 4 && Delivered(q.events) == base + s[..k] && q.live + Joined(rest) == s[k + |d|..]
    else
      q.state == 3 && |q.live| <= |d| && |q.live| <= |s| && q.live == s[|s| - |q.live|..]
      && Delivered(q.events) == base + s[..|s| - |q.live|]
  }

  lemma {:induction false} FoundSearched(q: Parser, rest: seq<string>, base: string, out: string, live: string,
                                         d: string)
    requires d != "" && Find(live, d) < |live| && Find(out + live, d) == |out| + Find(live, d)
    requires q.state == 4 && q.live == live[Find(live, d) + |d|..]
    requires Delivered(q.events) == base + out + live[..Find(live, d)]
    ensures Searched(q, rest, base, out + (live + Joined(rest)), d)
  {
    hide Delivered, Joined;
    var all, more, pos := out + live, Joined(rest), Find(live, d);
    Append3(out, live, more);
    FindInPrefix(all, more, d);
    assert (all + more)[..|out| + pos] == out + live[..pos];
    Append3(base, out, live[..pos]);
    assert all[|out| + pos + |d|..] == live[pos + |d|..];
    assert (all + more)[|out| + pos + |d|..] == all[|out| + pos + |d|..] + more;
  }

  lemma MissingSearched(q: Parser, base: string, out: string, d: string)
    requires d != "" && Find(out + q.live, d) == |out + q.live|
    requires q.state == 3 && |q.live| <= |d| && Delivered(q.events) == base + out
    ensures Searched(q, [], base, out + (q.live + ""), d)
  {
    var s := out + q.live;
    assert q.live + "" == q.live;
    assert s[..|out|] == out && s[|out|..] == q.live;
  }

  lemma {:induction false} SearchFrom(p: Parser, d: string, accept: Receiver, base: string, out: string,
                                      fragments: seq<string>)
    requires d != "" && p.state == 3 && Searching(out, p.live, d) && |p.live| <= |d|
    requires Find(out + p.live, d) == |out + p.live| && Delivered(p.events) == base + out
    ensures var (ok, q, rest) := BodyFeed(p, d, accept, fragments);
            (ok ==> Searched(q, rest, base, out + (p.live + Joined(fragments)), d))
            && (!ok ==> !accept(q.events))
    decreases |fragments|
  {
    hide BodyTurn, Delivered, Searched;
    if fragments == [] {
      MissingSearched(p, base, out, d);
    } else {
      var next, more := p.(live := p.live + fragments[0]), Joined(fragments[1..]);
      Append3(p.live, fragments[0], more);
      SearchedStays(out, p.live, d, fragments[0]);
      FindBehind(out, next.live, d);
      var q := BodyTurn(next, d, accept).p;
      if Find(next.live, d) < |next.live| {
        BodyFound(next, d, accept);
        if BodyTurn(next, d, accept).Continue? { FoundSearched(q, fragments[1..], base, out, next.live, d); }
      } else {
        var got := BodyMissing(next, d, accept, out);
        if BodyTurn(next, d, accept).ok {
          Append3(base, out, got);
          Append3(out, got, q.live);
          Append3(got, q.live, more);
          Append3(out, got, q.live + more);
          SearchFrom(q, d, accept, base, out + got, fragments[1..]);
        }
      }
    }
  }

  /** From the start of a body, with any delimiter, receiver and fragments: a sequence of
      calls searches like this and then goes on behind the delimiter, unless the receiver
      refuses what has been handed over. */
  lemma {:induction false} StreamingSearch(p: Parser, o: string, d: string, accept: Receiver, fragments: seq<string>)
    requires o != "" && d != "" && p.state == 3 && p.live == ""
    ensures var (ok, q, rest) := BodyFeed(p, d, accept, fragments);
            (ok ==> Searched(q, rest, Delivered(p.events), Joined(fragments), d))
            && (!ok ==> !accept(q.events))
            && Feed(p, o, d, accept, fragments) ==
               if !ok || q.state == 3 then (ok, q)
               else
                 var (more, r) := Run(q, o, d, accept);
                 if more then Feed(r, o, d, accept, rest) else (false, r)
  {
    hide Delivered, Feed, BodyFeed, Searched;
    var s := Joined(fragments);
    assert "" + ("" + s) == s;
    assert Delivered(p.events) + "" == Delivered(p.events);
    SearchFrom(p, d, accept, Delivered(p.events), "", fragments);
    FeedIsBodyFeed(p, o, d, accept, fragments);
  }
}
