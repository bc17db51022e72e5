/** A server that plays a longest script keeps a call busy that long, for every number of
    redirects and authentication tries left. */
module BusyServer {
  import opened Bytes
  import opened Redirects
  import opened RedirectScripts
  import opened RedirectBounds
  import Fields

  /** Every location is the root of the same site, and every challenge can be answered. */
  ghost predicate Hostile(w: World) {
    && w.tls && w.site.scheme == "https" && !w.proxied && w.followLocation && w.digest
    && (forall headers :: w.readable(headers, false))
    && w.parse("/") == Some(Location("", "", None, "/", ""))
  }

  ghost predicate Plays(w: World, at: nat, s: Script) { forall i :: 0 <= i < |s| ==> w.replies(at + i) == s[i] }

  /** Headers gathered from any number of such redirects. */
  predicate Rooted(res: Response) { forall i :: 0 <= i < |res.headers| ==> res.headers[i] == ("Location", "/") }

  lemma PlaysParts(w: World, at: nat, a: Script, b: Script)
    requires Plays(w, at, a + b)
    ensures Plays(w, at, a) && Plays(w, at + |a|, b)
  {
    var s := a + b;
    forall i | 0 <= i < |a| ensures w.replies(at + i) == a[i] { assert s[i] == a[i]; }
    forall i | 0 <= i < |b| ensures w.replies(at + |a| + i) == b[i] { assert s[|a| + i] == b[i]; }
  }

  lemma PlaysFirst(w: World, at: nat, s: Script)
    requires s != [] && Plays(w, at, s)
    ensures w.replies(at) == s[0]
  {
    assert w.replies(at + 0) == s[0];
  }

  lemma RootPath()
    ensures Fields.UrlDecoded("/", true) + "" == "/"
  {
    assert Fields.DecodedFrom("/", true, 1) == "";
  }

  lemma {:induction false} RootDestination(w: World, res: Response)
    requires Hostile(w) && Rooted(res) && res.headers != []
    ensures Destination(w, res) == Some((w.site, "/")) && ClientFor(w, w.site) == w
  {
    assert res.headers[0] == ("Location", "/");
    assert EqualIgnoreCase("Location", "location") by { SameLetters(); }
    RootPath();
  }

  lemma SameLetters()
    ensures EqualIgnoreCase("Location", "location")
  {
    var a, b := "Location", "location";
    assert ToLower(a[0]) == b[0];
    assert forall i :: 1 <= i < |a| ==> a[i] == b[i];
  }

  /** A call or an attempt has played the script to its end. */
  predicate Played(o: Outcome, sent: seq<Call>, s: Script, q: nat) {
    |o.sent| == |sent| + |s| && o.req.redirects == q && o.req.path != "" && Rooted(o.res)
  }

  predicate AnswerPlayed(o: Outcome, sent: seq<Call>, s: Script, q: nat) {
    Played(o, sent, s, q) && o.ok && o.res.status == 401
  }

  predicate ClosePlayed(o: Outcome, sent: seq<Call>, s: Script, q: nat) {
    Played(o, sent, s, q) && o.error == PeerCouldBeClosed
  }

  function First(closes: bool, r: nat, t: nat, q: nat): Script
    requires q <= r
  {
    if q == r then [] else CallAnswered(closes, r - 1, t, q)
  }

  lemma {:induction false} FirstAndBehind(closes: bool, r: nat, t: nat, q: nat)
    requires q <= r
    ensures OnceAnswered(closes, r, t, q)[1..]
            == First(closes, r, t, q) + if t > 0 then Most(closes, q, t - 1) else []
  {
    hide CallAnswered, Most;
  }

  /** The challenge itself, or the redirect to one. */
  lemma {:induction false} PlayFirst(w: World, req: Request, res: Response, sent: seq<Call>, closes: bool, q: nat)
    returns (o: Outcome)
    requires Hostile(w) && Rooted(res) && q <= req.redirects && req.path != ""
    requires res.status == (if q == req.redirects then 401 else 302) && (q < req.redirects ==> res.headers != [])
    requires Plays(w, |sent|, First(closes, req.redirects, Tries(req), q))
    ensures AnswerPlayed(o, sent, First(closes, req.redirects, Tries(req), q), q)
    ensures o.req.authorizations == req.authorizations
    ensures o == if q < req.redirects then Followed(w, req, res, sent)
                 else Outcome(true, Written(w, req), res, Success, sent)
    decreases req.redirects + Tries(req), 0
  {
    hide CallAnswered, Sent, Destination;
    o := Outcome(true, Written(w, req), res, Success, sent);
    if q < req.redirects {
      RootDestination(w, res);
      PlayCallAnswered(w, Redirected(req, 302, "/"), sent, closes, q);
      o := Followed(w, req, res, sent);
    }
  }

  /** Behind a first reply: the redirect, and the authentication if there is a try left. */
  lemma {:induction false} PlayAnswer(w: World, req: Request, res: Response, sent: seq<Call>, closes: bool, q: nat)
    requires Hostile(w) && Rooted(res) && q <= req.redirects && req.path != ""
    requires res.status == (if q == req.redirects then 401 else 302) && (q < req.redirects ==> res.headers != [])
    requires Plays(w, |sent|, OnceAnswered(closes, req.redirects, Tries(req), q)[1..])
    ensures AnswerPlayed(Replied(w, req, res, sent), sent, OnceAnswered(closes, req.redirects, Tries(req), q)[1..], q)
    decreases req.redirects + Tries(req), 1
  {
    hide First, Most, Sent, Without, Followed;
    var r, t := req.redirects, Tries(req);
    var first, behind := First(closes, r, t, q), if t > 0 then Most(closes, q, t - 1) else [];
    assert OnceAnswered(closes, r, t, q)[1..] == first + behind by { FirstAndBehind(closes, r, t, q); }
    PlaysParts(w, |sent|, first, behind);
    var o := PlayFirst(w, req, res, sent, closes, q);
    if t > 0 { PlayMost(w, Answering(w, o.req, o.res), o.sent, closes); }
  }

  lemma {:induction false} PlayOnceAnswered(w: World, req: Request, res: Response, sent: seq<Call>, closes: bool,
                                            q: nat)
    requires Hostile(w) && Rooted(res) && q <= req.redirects && req.path != ""
    requires Plays(w, |sent|, OnceAnswered(closes, req.redirects, Tries(req), q))
    ensures AnswerPlayed(Tried(w, req, res, sent), sent, OnceAnswered(closes, req.redirects, Tries(req), q), q)
    decreases req.redirects + Tries(req), 3
  {
    hide CallAnswered, Most, Replied, WithDefaults, Tried;
    var s, done := OnceAnswered(closes, req.redirects, Tries(req), q), Completed(w, req);
    PlaysFirst(w, |sent|, s);
    assert s == [s[0]] + s[1..];
    PlaysParts(w, |sent|, [s[0]], s[1..]);
    var got, more := Received(res, s[0]), sent + [Issued(w, done)];
    PlayAnswer(w, done, got, more, closes, q);
    TriedIs(w, req, res, sent);
  }

  /** The redirect ends with a closed connection, and so does the attempt. */
  lemma {:induction false} PlayClosedRedirect(w: World, req: Request, res: Response, sent: seq<Call>)
    requires Hostile(w) && Rooted(res) && res.headers != [] && res.status == 302
    requires req.redirects > 0 && req.path != "" && Plays(w, |sent|, CallClosed(req.redirects - 1, Tries(req)))
    ensures ClosePlayed(Replied(w, req, res, sent), sent, CallClosed(req.redirects - 1, Tries(req)), req.redirects)
    decreases req.redirects + Tries(req), 1
  {
    hide CallClosed, Sent, Destination;
    RootDestination(w, res);
    PlayCallClosed(w, Redirected(req, 302, "/"), sent);
    assert !Sent(w, Redirected(req, 302, "/"), sent).ok;
    assert Replied(w, req, res, sent) == Followed(w, req, res, sent);
  }

  /** The authentication behind a redirect to `q`, or behind none, does so. */
  lemma {:induction false} PlayClosedAnswer(w: World, req: Request, res: Response, sent: seq<Call>, q: nat)
    requires Hostile(w) && Rooted(res) && Tries(req) > 0 && q <= req.redirects && req.path != ""
    requires res.status == (if q == req.redirects then 401 else 302) && (q < req.redirects ==> res.headers != [])
    requires Plays(w, |sent|, First(true, req.redirects, Tries(req), q) + CallClosed(q, Tries(req) - 1))
    ensures ClosePlayed(Replied(w, req, res, sent), sent,
                        First(true, req.redirects, Tries(req), q) + CallClosed(q, Tries(req) - 1), q)
    decreases req.redirects + Tries(req), 1
  {
    hide First, CallClosed, Sent, Without, Followed;
    var r, t := req.redirects, Tries(req);
    PlaysParts(w, |sent|, First(true, r, t, q), CallClosed(q, t - 1));
    var o := PlayFirst(w, req, res, sent, true, q);
    PlayCallClosed(w, Answering(w, o.req, o.res), o.sent);
  }

  lemma {:induction false} PlayPeerClosed(w: World, req: Request, res: Response, sent: seq<Call>)
    requires Hostile(w) && Rooted(res) && req.path != "" && w.replies(|sent|) == PeerClosed
    ensures ClosePlayed(Tried(w, req, res, sent), sent, [PeerClosed], req.redirects)
  {
    hide WithDefaults, Replied;
    var o := Handled(w, Completed(w, req), res, sent);
    assert o.error == PeerCouldBeClosed;
  }

  /** The ways to a closed connection. */
  lemma {:induction false} ClosedShape(r: nat, t: nat, q: nat)
    requires Least(r, t, 0) <= q <= r
    ensures var s := OnceClosed(r, t, q);
            || (s == [PeerClosed] && q == r)
            || (s != [] && s[0] == REDIRECTS && q == r > 0 && s[1..] == CallClosed(r - 1, t))
            || (s != [] && s[0] == (if q == r then CHALLENGES else REDIRECTS) && t > 0
                && s[1..] == First(true, r, t, q) + CallClosed(q, t - 1))
  {
    hide CallAnswered, CallClosed;
    if q == r { assert [] + CallClosed(r, if t > 0 then t - 1 else 0) == CallClosed(r, if t > 0 then t - 1 else 0); }
  }

  lemma {:induction false} PlayOnceClosed(w: World, req: Request, res: Response, sent: seq<Call>, q: nat)
    requires Hostile(w) && Rooted(res) && Least(req.redirects, Tries(req), 0) <= q <= req.redirects && req.path != ""
    requires Plays(w, |sent|, OnceClosed(req.redirects, Tries(req), q))
    ensures ClosePlayed(Tried(w, req, res, sent), sent, OnceClosed(req.redirects, Tries(req), q), q)
    decreases req.redirects + Tries(req), 3
  {
    hide OnceClosed, First, CallClosed, Replied, WithDefaults, Tried;
    var r, t, done := req.redirects, Tries(req), Completed(w, req);
    var s := OnceClosed(r, t, q);
    var more := sent + [Issued(w, done)];
    ClosedShape(r, t, q);
    PlaysFirst(w, |sent|, s);
    assert s == [s[0]] + s[1..];
    PlaysParts(w, |sent|, [s[0]], s[1..]);
    if s[0] == PeerClosed {
      PlayPeerClosed(w, req, res, sent);
    } else {
      TriedIs(w, req, res, sent);
      var got := Received(res, s[0]);
      if q == r && s[0] == REDIRECTS {
        PlayClosedRedirect(w, done, got, more);
      } else {
        PlayClosedAnswer(w, done, got, more, q);
      }
    }
  }

  lemma {:induction false} PlayCallAnswered(w: World, req: Request, sent: seq<Call>, closes: bool, q: nat)
    requires Hostile(w) && q <= req.redirects && req.path != ""
    requires Plays(w, |sent|, CallAnswered(closes, req.redirects, Tries(req), q))
    ensures AnswerPlayed(Sent(w, req, sent), sent, CallAnswered(closes, req.redirects, Tries(req), q), q)
    decreases req.redirects + Tries(req), 4
  {
    hide OnceAnswered, OnceClosed, Tried, LongestOf;
    var r, t := req.redirects, Tries(req);
    var twice, p := CallAnsweredIs(r, t, q);
    if closes && twice {
      PlaysParts(w, |sent|, OnceClosed(r, t, p), OnceAnswered(true, p, t, q));
      var o := Tried(w, req, FRESH, sent);
      PlayOnceClosed(w, req, FRESH, sent, p);
      PlayOnceAnswered(w, o.req, o.res, o.sent, true, q);
    } else {
      PlayOnceAnswered(w, req, FRESH, sent, closes, q);
    }
  }

  lemma {:induction false} PlayCallClosed(w: World, req: Request, sent: seq<Call>)
    requires Hostile(w) && req.path != "" && Plays(w, |sent|, CallClosed(req.redirects, Tries(req)))
    ensures var o := Sent(w, req, sent); ClosePlayed(o, sent, CallClosed(req.redirects, Tries(req)), o.req.redirects)
    decreases req.redirects + Tries(req), 4
  {
    hide OnceClosed, CallClosed, Tried;
    var r, t, o := req.redirects, Tries(req), Tried(w, req, FRESH, sent);
    var p, q := CallClosedIs(r, t);
    PlaysParts(w, |sent|, OnceClosed(r, t, p), OnceClosed(p, t, q));
    PlayOnceClosed(w, req, FRESH, sent, p);
    PlayOnceClosed(w, o.req, o.res, o.sent, q);
  }

  lemma {:induction false} PlayMost(w: World, req: Request, sent: seq<Call>, closes: bool)
    requires Hostile(w) && req.path != "" && Plays(w, |sent|, Most(closes, req.redirects, Tries(req)))
    ensures var o := Sent(w, req, sent);
            AnswerPlayed(o, sent, Most(closes, req.redirects, Tries(req)), o.req.redirects)
    decreases req.redirects + Tries(req), 5
  {
    hide CallAnswered, Most, Sent;
    var q := MostIs(closes, req.redirects, Tries(req));
    PlayCallAnswered(w, req, sent, closes, q);
  }

  /** Without closed connections in mind a script has none. */
  lemma {:induction false} NoneClosed(r: nat, t: nat, q: nat)
    requires q <= r
    ensures PeerClosed !in CallAnswered(false, r, t, q)
    decreases t, r, 0
  {
    hide Most;
    if t > 0 { NoneClosedMost(q, t - 1); }
    if q < r { NoneClosed(r - 1, t, q); }
  }

  lemma {:induction false} NoneClosedMost(r: nat, t: nat)
    ensures PeerClosed !in Most(false, r, t)
    decreases t, r, 1
  {
    hide CallAnswered, Most;
    var q := MostIs(false, r, t);
    NoneClosed(r, t, q);
  }

  /** For every number of redirects and tries there is a world in which a call issues exactly
      as many requests as the bound says. */
  lemma {:induction false} BoundReached(closes: bool, r: nat, t: nat) returns (w: World, req: Request)
    requires t <= MAX_AUTHORIZATIONS
    ensures req.redirects == r && Chances(w, req) == t && (closes || NeverCloses(w))
    ensures Issuing(Sent(w, req, []), []) == |Most(closes, r, t)|
  {
    hide Most, Sent;
    var s := Most(closes, r, t);
    w := World((k: nat) => if k < |s| then s[k] else NoReply,
               Site("https", "host", 443), true, true, false, true, true, [],
               _ => Some(Location("", "", None, "/", "")), (_, _) => true, (_, q: Request) => q.headers, (_, _) => "");
    req := Request("GET", "/", [], "", None, r, MAX_AUTHORIZATIONS - t);
    if !closes {
      NoneClosedMost(r, t);
      assert forall k :: w.replies(k) != PeerClosed;
    }
    PlayMost(w, req, [], closes);
  }
}
