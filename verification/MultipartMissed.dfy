/** What the parser makes of a serialized body when it misses the opening delimiter: it may
    take later text for an opening, even text inside a header line or a content, but it never
    gets the items back. With the contents that hold the delimiter this says exactly when the
    items of a body come back. */
module MultipartMissed {
  import opened Bytes
  import opened PartHeaders
  import opened MultipartParser
  import opened MultipartSerializer
  import opened MultipartBodies
  import opened MultipartRoundTrip
  import opened MultipartCuts
  import opened MultipartPositions
  import opened MultipartLate
  import opened MultipartDelimited

  /** The parser behind something it took for the opening delimiter. */
  function Started(live: string): Parser { INITIAL.(live := live, state := 1) }

  /** Only the state matters when nothing has been read yet. */
  lemma {:induction false} OneStart(live: string, all: string, items: seq<MultipartFormData>, boundary: string)
    requires Missed(Started(""), all, items, boundary)
    ensures Missed(Started(live), all, items, boundary)
  {
    hide EndsIn, Serialized, AfterHeaders, ContentTypeLine, Assembled, Delimiter;
  }

  lemma {:induction false} OpensWith(items: seq<MultipartFormData>, boundary: string)
    requires items != []
    ensures Serialized(items, boundary, true)
            == Opening(boundary) + (HeaderBlock(items[0]) + AfterHeaders(items, 0, boundary))
  {
    hide HeaderBlock, AfterHeaders;
    SerializedIsDelimited(items, 0, boundary);
    Append3(DASH + boundary, CRLF, HeaderBlock(items[0]) + AfterHeaders(items, 0, boundary));
  }

  lemma CrlfBefore(s: string, k: nat, boundary: string)
    requires OccursAt(s, Opening(boundary), k)
    ensures EndsIn(s, CRLF + s[k + |Opening(boundary)|..])
  {
    var o, m := Opening(boundary), k + |Opening(boundary)|;
    assert s[m - 2..m] == s[k..m][|o| - 2..] == CRLF;
    assert s[m - 2..] == s[m - 2..m] + s[m..];
  }

  lemma {:induction false} StartsLate(items: seq<MultipartFormData>, boundary: string, k: nat)
    requires items != [] && Writable(items, boundary) && 0 < k
    requires OccursAt(Serialized(items, boundary, true), Opening(boundary), k)
    ensures Missed(Started(""), Serialized(items, boundary, true)[k + |Opening(boundary)|..], items, boundary)
  {
    hide WellFormed, ContentTypeLine, DispositionLine, HeaderBlock, AfterHeaders, EndsIn, SerializedFrom;
    var o, s, item := Opening(boundary), Serialized(items, boundary, true), items[0];
    var after, all := AfterHeaders(items, 0, boundary), s[k + |o|..];
    CrlfBefore(s, k, boundary);
    OpensWith(items, boundary);
    assert WritableHeaders(item) by { WritableAt(items, 0, boundary); }
    HeaderStart(item, boundary, after, k);
    assert Assembled([]) == [];
    if |all| + |o| <= |after| {
      assert Late(Started(""), all, s, items, boundary);
    } else {
      assert item.contentType == "" ==> "" + (CRLF + after) == CRLF + after;
      assert Headless(Started(""), all, items, boundary);
    }
  }

  lemma OpeningAt(before: string, f: string, rest: string, j: nat, o: string)
    requires OccursAt(f, o, j)
    ensures OccursAt(before + f + rest, o, |before| + j)
    ensures (before + f + rest)[|before| + j + |o|..] == f[j + |o|..] + rest
  {
    var s, k := before + f + rest, |before| + j;
    assert s[k..k + |o|] == f[j..j + |o|];
  }

  lemma {:induction false} StartMissed(before: string, f: string, rest: string, j: nat,
                                       items: seq<MultipartFormData>, boundary: string)
    requires items != [] && Writable(items, boundary) && Serialized(items, boundary, true) == before + f + rest
    requires OccursAt(f, Opening(boundary), j) && (before != "" || j > 0)
    ensures Missed(Started(f[j + |Opening(boundary)|..]), f[j + |Opening(boundary)|..] + rest, items, boundary)
  {
    hide WellFormed, OccursAt, Serialized, Opening, Missed;
    var o, s, k := Opening(boundary), Serialized(items, boundary, true), |before| + j;
    OpeningAt(before, f, rest, j, o);
    StartsLate(items, boundary, k);
    OneStart(f[j + |o|..], f[j + |o|..] + rest, items, boundary);
  }

  lemma FeedNothing(o: string, d: string, accept: Receiver)
    requires o != "" && d != ""
    ensures Feed(INITIAL, o, d, accept, []) == (true, INITIAL)
  {
  }

  /** The fragment that holds what the parser takes for the opening. */
  lemma {:induction false} FeedStarted(before: string, f: string, more: seq<string>, j: nat,
                                       items: seq<MultipartFormData>, boundary: string, accept: Receiver)
    requires items != [] && Writable(items, boundary) && Serialized(items, boundary, true) == before + f + Joined(more)
    requires j == Find(f, Opening(boundary)) < |f| && (before != "" || j > 0)
    ensures var (ok, q) := Feed(INITIAL, Opening(boundary), Delimiter(boundary), accept, [f] + more);
            ok ==> Assembled(q.events) != items
  {
    hide Opening, Delimiter, Writable, Serialized, Missed, Assembled, Find;
    var o, d := Opening(boundary), Delimiter(boundary);
    var q := Started(f[j + |o|..]);
    StartMissed(before, f, Joined(more), j, items, boundary);
    assert "" + f == f && ([f] + more)[1..] == more;
    assert Round(INITIAL.(live := f), o, d, accept) == Continue(q);
    RunMissed(q, Joined(more), items, boundary, accept);
    var (ok, r) := Run(q, o, d, accept);
    assert Run(INITIAL.(live := f), o, d, accept) == (ok, r);
    if ok { FeedMissed(r, more, items, boundary, accept); }
  }

  /** A parser that still waits for the opening when the start of the body is gone, or comes
      in pieces: it never gets the items back. */
  lemma {:induction false} FeedWaiting(before: string, fragments: seq<string>, items: seq<MultipartFormData>,
                                       boundary: string, accept: Receiver)
    requires items != [] && Writable(items, boundary) && Serialized(items, boundary, true) == before + Joined(fragments)
    requires before == "" ==> !OpensWhole(fragments, boundary)
    ensures var (ok, q) := Feed(INITIAL, Opening(boundary), Delimiter(boundary), accept, fragments);
            ok ==> Assembled(q.events) != items
    decreases |fragments|
  {
    hide Opening, Delimiter, WellFormed, Serialized, Missed, Feed;
    if fragments == [] {
      assert Feed(INITIAL, Opening(boundary), Delimiter(boundary), accept, []) == (true, INITIAL) by {
        FeedNothing(Opening(boundary), Delimiter(boundary), accept);
      }
    } else {
      var o, d, f, rest := Opening(boundary), Delimiter(boundary), fragments[0], Joined(fragments[1..]);
      var j := Find(f, o);
      assert "" + f == f && fragments == [f] + fragments[1..];
      Append3(before, f, rest);
      if j == |f| {
        FeedDropped(o, d, accept, fragments);
        FeedWaiting(before + f, fragments[1..], items, boundary, accept);
      } else {
        assert before != "" || j > 0;
        FeedStarted(before, f, fragments[1..], j, items, boundary, accept);
      }
    }
  }

  lemma FinishLength(boundary: string)
    ensures |Finish(boundary)| == |Opening(boundary)| + 2
  {
  }

  /** An empty list is written as a closing delimiter only, which is no valid body to read. */
  lemma {:induction false} NothingToRead(boundary: string, accept: Receiver, fragments: seq<string>)
    requires '\r' !in boundary && Joined(fragments) == Finish(boundary)
    ensures var (ok, q) := Feed(INITIAL, Opening(boundary), Delimiter(boundary), accept, fragments);
            ok && !q.valid && Assembled(q.events) == []
  {
    hide Opening, Finish;
    forall j: nat | OccursAt(Finish(boundary), Opening(boundary), j)
      ensures j + |Opening(boundary)| == |Finish(boundary)| && forall i :: 0 <= i < |boundary| ==> boundary[i] == '-'
    {
      OpeningInFinish(boundary, j);
      assert |Finish(boundary)| == |Opening(boundary)| + 2 by { FinishLength(boundary); }
    }
    FeedUnopened(boundary, accept, fragments);
  }

  /** Every list that can be written, every receiver that takes the parts, every cut: the items
      come back, whole and valid, exactly when there are any, no content holds the delimiter,
      and the opening delimiter at the start arrives in one fragment. */
  lemma {:induction false} RoundTripIff(items: seq<MultipartFormData>, boundary: string, accept: Receiver,
                                        fragments: seq<string>)
    requires Writable(items, boundary) && Takes(accept, |items|)
    requires Joined(fragments) == Serialized(items, boundary, true)
    ensures var (ok, q) := Feed(INITIAL, Opening(boundary), Delimiter(boundary), accept, fragments);
            ok && q.valid && Assembled(q.events) == items
            <==> items != [] && Undelimited(items, boundary) && OpensWhole(fragments, boundary)
  {
    hide Opening, Delimiter, Takes, Assembled, OpensWhole, WellFormed, Undelimited;
    if items == [] {
      NothingToRead(boundary, accept, fragments);
    } else if !OpensWhole(fragments, boundary) {
      var s := Serialized(items, boundary, true);
      assert "" + s == s;
      FeedWaiting("", fragments, items, boundary, accept);
    } else if Undelimited(items, boundary) {
      RoundTrip(items, boundary, accept, fragments);
    } else {
      DelimitedLost(items, boundary, accept, fragments);
    }
  }
}
