/** No call issues more requests than a longest script of replies makes it issue. */
module RedirectBounds {
  import opened Bytes
  import opened Redirects
  import opened RedirectScripts

  function Issuing(o: Outcome, sent: seq<Call>): int { |o.sent| - |sent| }

  /** Requests an authentication header could be sent for. */
  function Chances(w: World, req: Request): nat { if w.tls && (w.digest || w.proxyDigest) then Tries(req) else 0 }

  /** No peer seems to close a TLS connection, or the client would not notice. */
  ghost predicate NeverCloses(w: World) {
    w.proxied || (!w.tls && w.site.scheme != "https") || forall k :: w.replies(k) != PeerClosed
  }

  /** `n` requests of one attempt are no more than the scripts for its ending have. */
  ghost predicate OnceWithin(closes: bool, r: nat, t: nat, o: Outcome, n: int) {
    if o.ok then o.req.redirects <= r && n <= |OnceAnswered(closes, r, t, o.req.redirects)|
    else if o.error == PeerCouldBeClosed then
      closes && Least(r, t, 0) <= o.req.redirects <= r && n <= |OnceClosed(r, t, o.req.redirects)|
    else exists q: nat :: q <= r && n <= |OnceAnswered(closes, r, t, q)|
  }

  ghost predicate CallWithin(closes: bool, r: nat, t: nat, o: Outcome, n: int) {
    if o.ok then o.req.redirects <= r && n <= |CallAnswered(closes, r, t, o.req.redirects)|
    else if o.error == PeerCouldBeClosed then closes && n <= |CallClosed(r, t)|
    else n <= |Most(closes, r, t)|
  }

  lemma {:induction false} CallWithinMost(closes: bool, r: nat, t: nat, o: Outcome, n: int)
    requires CallWithin(closes, r, t, o, n)
    ensures n <= |Most(closes, r, t)|
  {
    hide CallAnswered, CallClosed, Most;
    if o.ok { AtMost(closes, r, t, o.req.redirects); }
    if closes { CallClosedNoLonger(r, t); }
  }

  /** The requests an attempt has issued when it comes to the question of authentication. */
  predicate First(closes: bool, r: nat, t: nat, q: nat, n: int) {
    q <= r && n <= 1 + if q < r then |CallAnswered(closes, r - 1, t, q)| else 0
  }

  lemma {:induction false} FirstWithin(closes: bool, r: nat, t: nat, q: nat, n: int)
    requires First(closes, r, t, q, n)
    ensures n + (if t > 0 then |Most(closes, q, t - 1)| else 0) <= |OnceAnswered(closes, r, t, q)|
  {
    hide CallAnswered, Most;
  }

  lemma {:induction false} FailedWithin(closes: bool, r: nat, t: nat, o: Outcome, child: Outcome, n: int)
    requires r > 0 && !child.ok && CallWithin(closes, r - 1, t, child, n)
    requires !o.ok && o.error == child.error && o.req.redirects == r
    ensures OnceWithin(closes, r, t, o, n + 1)
  {
    hide CallAnswered, CallClosed, Most, OnceClosed;
    if o.error == PeerCouldBeClosed {
      ClosedOnce(r, t);
    } else {
      var q := MostIs(closes, r - 1, t);
      assert n + 1 <= |OnceAnswered(closes, r, t, q)|;
    }
  }

  lemma {:induction false} AgainWithin(closes: bool, r: nat, t: nat, o: Outcome, n: int, again: Outcome, m: int)
    requires t > 0 && First(closes, r, t, o.req.redirects, n)
    requires CallWithin(closes, o.req.redirects, t - 1, again, m) && o.ok == again.ok && o.error == again.error
    ensures OnceWithin(closes, r, t, o, n + m)
  {
    hide CallAnswered, CallClosed, Most, OnceAnswered;
    var q := o.req.redirects;
    FirstWithin(closes, r, t, q, n);
    CallWithinMost(closes, q, t - 1, again, m);
    if !o.ok && o.error == PeerCouldBeClosed {
      if q == r { ClosedOnce(r, t); }
    } else {
      assert n + m <= |OnceAnswered(closes, r, t, q)|;
    }
  }

  lemma {:induction false} StoppedWithin(closes: bool, r: nat, t: nat, o: Outcome)
    requires !o.ok && o.error != PeerCouldBeClosed
    ensures OnceWithin(closes, r, t, o, 1)
  {
    hide CallAnswered, Most;
    assert 1 <= |OnceAnswered(closes, r, t, r)|;
  }

  lemma AnsweredWithin(closes: bool, r: nat, t: nat, o: Outcome, n: int)
    requires o.ok && o.req.redirects <= r && n <= |OnceAnswered(closes, r, t, o.req.redirects)|
    ensures OnceWithin(closes, r, t, o, n)
  {
  }

  lemma {:induction false} StillNeverCloses(w: World, res: Response)
    requires Destination(w, res).Some?
    ensures NeverCloses(w) ==> NeverCloses(ClientFor(w, Destination(w, res).value.0))
  {
    hide TargetPath, HeaderValue;
  }

  lemma {:induction false} FollowedWithin(w: World, req: Request, res: Response, sent: seq<Call>, closes: bool)
    requires (closes || NeverCloses(w)) && IsRedirect(res)
    ensures var o := Followed(w, req, res, sent);
            var r, t, n := req.redirects, Chances(w, req), Issuing(o, sent) + 1;
            if o.ok then First(closes, r, t, o.req.redirects, n)
            else OnceWithin(closes, r, t, o, n) && !IsChallenge(o.res)
    decreases req.redirects + Tries(req), 0
  {
    hide CallAnswered, Sent, OnceWithin, Destination, CallClosed, Most, NeverCloses;
    var r, t, o, to := req.redirects, Chances(w, req), Followed(w, req, res, sent), Destination(w, res);
    if r > 0 && to.Some? {
      var next, there := Redirected(req, res.status, to.value.1), ClientFor(w, to.value.0);
      StillNeverCloses(w, res);
      SentWithin(there, next, sent, closes);
      var child := Sent(there, next, sent);
      if !child.ok { FailedWithin(closes, r, t, o, child, Issuing(child, sent)); }
    } else {
      StoppedWithin(closes, r, t, o);
    }
  }

  lemma {:induction false} RepliedWithin(w: World, req: Request, res: Response, sent: seq<Call>, closes: bool)
    requires closes || NeverCloses(w)
    ensures var o := Replied(w, req, res, sent);
            OnceWithin(closes, req.redirects, Chances(w, req), o, Issuing(o, sent) + 1)
    decreases req.redirects + Tries(req), 1
  {
    hide OnceAnswered, CallAnswered, Without, Sent, Followed, NeverCloses, OnceWithin, CallWithin;
    var r, t, follows := req.redirects, Chances(w, req), IsRedirect(res) && w.followLocation;
    var o := if follows then Followed(w, req, res, sent) else Outcome(true, Written(w, req), res, Success, sent);
    var n := Issuing(o, sent) + 1;
    if follows { FollowedWithin(w, req, res, sent, closes); }
    if Answers(w, o.req, o.res) {
      var next := Answering(w, o.req, o.res);
      var again := Sent(w, next, o.sent);
      SentWithin(w, next, o.sent, closes);
      AgainWithin(closes, r, t, Replied(w, req, res, sent), n, again, Issuing(again, o.sent));
    } else if o.ok {
      FirstWithin(closes, r, t, o.req.redirects, n);
      AnsweredWithin(closes, r, t, o, n);
    }
  }

  /** A failure without a reason gets one. */
  lemma Renamed(closes: bool, r: nat, t: nat, o: Outcome, o': Outcome, n: int)
    requires OnceWithin(closes, r, t, o, n)
    requires o' == if !o.ok && o.error == Success then o.(error := Unknown) else o
    ensures OnceWithin(closes, r, t, o', n)
  {
  }

  lemma ClosedWithin(closes: bool, r: nat, t: nat, o: Outcome)
    requires closes && !o.ok && o.error == PeerCouldBeClosed && o.req.redirects == r && |OnceClosed(r, t, r)| >= 1
    ensures OnceWithin(closes, r, t, o, 1)
  {
  }

  lemma FewerWithin(closes: bool, r: nat, t: nat, o: Outcome, n: int, m: int)
    requires OnceWithin(closes, r, t, o, n) && m <= n
    ensures OnceWithin(closes, r, t, o, m)
  {
    if !o.ok && o.error != PeerCouldBeClosed {
      var q: nat :| q <= r && n <= |OnceAnswered(closes, r, t, q)|;
      assert q <= r && m <= |OnceAnswered(closes, r, t, q)|;
    }
  }

  lemma {:induction false} TriedWithin(w: World, req: Request, res: Response, sent: seq<Call>, closes: bool)
    requires closes || NeverCloses(w)
    ensures var o := Tried(w, req, res, sent);
            OnceWithin(closes, req.redirects, Chances(w, req), o, Issuing(o, sent))
    decreases req.redirects + Tries(req), 3
  {
    hide OnceAnswered, OnceClosed, Replied, OnceWithin, WithDefaults, Tried;
    var r, t, reply, o := req.redirects, Chances(w, req), w.replies(|sent|), Tried(w, req, res, sent);
    if req.path != "" && reply.Reply? {
      var done, got := Completed(w, req), Received(res, reply);
      var more := sent + [Issued(w, done)];
      TriedIs(w, req, res, sent);
      RepliedWithin(w, done, got, more, closes);
      Renamed(closes, r, t, Replied(w, done, got, more), o, Issuing(o, sent));
    } else {
      TriedStops(w, req, res, sent);
      if o.error == PeerCouldBeClosed {
        ClosedOnce(r, t);
        ClosedWithin(closes, r, t, o);
      } else {
        StoppedWithin(closes, r, t, o);
      }
      FewerWithin(closes, r, t, o, 1, Issuing(o, sent));
    }
  }

  lemma {:induction false} OnceIsCall(closes: bool, r: nat, t: nat, o: Outcome, n: int)
    requires OnceWithin(closes, r, t, o, n) && o.error != PeerCouldBeClosed
    ensures CallWithin(closes, r, t, o, n)
  {
    hide OnceAnswered, OnceClosed, CallAnswered, CallClosed, Most;
    if o.ok {
      AnsweredOnce(closes, r, t, o.req.redirects);
    } else {
      var q: nat :| q <= r && n <= |OnceAnswered(closes, r, t, q)|;
      AnsweredOnce(closes, r, t, q);
      AtMost(closes, r, t, q);
    }
  }

  lemma {:induction false} TwiceIsCall(closes: bool, r: nat, t: nat, o: Outcome, n: int, again: Outcome, m: int)
    requires OnceWithin(closes, r, t, o, n) && !o.ok && o.error == PeerCouldBeClosed
    requires OnceWithin(closes, o.req.redirects, t, again, m)
    ensures CallWithin(closes, r, t, again, n + m)
  {
    hide OnceAnswered, OnceClosed, CallAnswered, CallClosed, Most;
    var p := o.req.redirects;
    if again.ok {
      AnsweredTwice(r, t, p, again.req.redirects);
    } else if again.error == PeerCouldBeClosed {
      ClosedTwice(r, t, p, again.req.redirects);
    } else {
      var q: nat :| q <= p && m <= |OnceAnswered(closes, p, t, q)|;
      AnsweredTwice(r, t, p, q);
      AtMost(true, r, t, q);
    }
  }

  lemma {:induction false} SentWithin(w: World, req: Request, sent: seq<Call>, closes: bool)
    requires closes || NeverCloses(w)
    ensures var o := Sent(w, req, sent); CallWithin(closes, req.redirects, Chances(w, req), o, Issuing(o, sent))
    decreases req.redirects + Tries(req), 4
  {
    hide OnceWithin, CallWithin, Tried, NeverCloses;
    var r, t, o := req.redirects, Chances(w, req), Tried(w, req, FRESH, sent);
    TriedWithin(w, req, FRESH, sent, closes);
    if o.error == PeerCouldBeClosed {
      var again := Tried(w, o.req, o.res, o.sent);
      TriedWithin(w, o.req, o.res, o.sent, closes);
      TwiceIsCall(closes, r, t, o, Issuing(o, sent), again, Issuing(again, o.sent));
    } else {
      OnceIsCall(closes, r, t, o, Issuing(o, sent));
    }
  }

  /** Every call ends, and issues no more requests than the longest script for its remaining
      redirects and authentication tries has replies. */
  lemma {:induction false} SentBound(w: World, req: Request, sent: seq<Call>, closes: bool)
    requires closes || NeverCloses(w)
    ensures Issuing(Sent(w, req, sent), sent) <= |Most(closes, req.redirects, Chances(w, req))|
  {
    hide CallWithin, Most, Sent;
    SentWithin(w, req, sent, closes);
    CallWithinMost(closes, req.redirects, Chances(w, req), Sent(w, req, sent), Issuing(Sent(w, req, sent), sent));
  }

  /** Without credentials one call issues at most one request more than it has redirects left,
      twenty-one for a fresh request, unless peers seem to close a TLS connection: then the
      limit on redirects bounds the requests by a power of two only. */
  lemma {:induction false} WithoutAuthentication(w: World, req: Request, sent: seq<Call>)
    requires !w.tls || (!w.digest && !w.proxyDigest)
    ensures NeverCloses(w) ==> Issuing(Sent(w, req, sent), sent) <= req.redirects + 1
    ensures NeverCloses(w) && req.redirects == REDIRECT_MAX_COUNT ==> Issuing(Sent(w, req, sent), sent) <= 21
    ensures Issuing(Sent(w, req, sent), sent) <= Pow2(req.redirects + 2) - 2
  {
    hide NeverCloses, Sent, Most;
    if NeverCloses(w) { SentBound(w, req, sent, false); }
    SentBound(w, req, sent, true);
    MostWithoutTries(false, req.redirects);
    MostWithoutTries(true, req.redirects);
  }

  // ------------------------------------------------------------- servers without end

  /** A redirect that any client with these settings can follow. */
  predicate Leads(w: World, reply: Reply) {
    reply.Reply? && IsRedirect(Received(FRESH, reply))
    && var text := HeaderValue(reply.headers, "location");
       text != "" && w.parse(text).Some? && TargetPath(w.parse(text).value) != ""
       && (w.tls || w.parse(text).value.scheme != "https")
  }

  lemma {:induction false} LeadsSomewhere(w: World, reply: Reply)
    requires Leads(w, reply) && (w.tls || w.site.scheme != "https")
    ensures reply.Reply? && IsRedirect(Received(FRESH, reply))
    ensures var to := Destination(w, Received(FRESH, reply));
            to.Some? && to.value.1 != "" && (w.tls || to.value.0.scheme != "https")
  {
    hide TargetPath, HeaderValue;
    assert [] + reply.headers == reply.headers;
  }

  lemma LeadsThere(w: World, site: Site, reply: Reply)
    ensures Leads(ClientFor(w, site), reply) <==> Leads(w, reply)
  {
  }

  lemma SentOnce(w: World, req: Request, sent: seq<Call>)
    requires Tried(w, req, FRESH, sent).error != PeerCouldBeClosed
    ensures Sent(w, req, sent) == Tried(w, req, FRESH, sent)
  {
  }

  /** A server that only redirects uses up all redirects, and the call reports it. */
  lemma {:induction false} EndlessRedirects(w: World, req: Request, sent: seq<Call>)
    requires w.followLocation && req.path != "" && (w.tls || w.site.scheme != "https")
    requires forall k :: |sent| <= k ==> Leads(w, w.replies(k))
    ensures var o := Sent(w, req, sent);
            !o.ok && o.error == ExceedRedirectCount && Issuing(o, sent) == req.redirects + 1
    decreases req.redirects
  {
    hide WithDefaults, Issued, Tried, Destination, Leads, Sent;
    var reply, done := w.replies(|sent|), Completed(w, req);
    LeadsSomewhere(w, reply);
    var res, more := Received(FRESH, reply), sent + [Issued(w, done)];
    if req.redirects > 0 {
      var (site, path) := Destination(w, res).value;
      var there := ClientFor(w, site);
      forall k | |more| <= k ensures Leads(there, there.replies(k)) { LeadsThere(w, site, w.replies(k)); }
      EndlessRedirects(there, Redirected(done, res.status, path), more);
    }
    var o := Followed(w, done, res, more);
    assert !o.ok && o.error == ExceedRedirectCount && Issuing(o, sent) == req.redirects + 1;
    assert Replied(w, done, res, more) == o;
    TriedIs(w, req, FRESH, sent);
    assert Sent(w, req, sent) == o by { SentOnce(w, req, sent); }
  }

  predicate Challenging(w: World, reply: Reply) {
    reply.Reply? && IsChallenge(Received(FRESH, reply))
    && (if reply.status == 407 then w.proxyDigest else w.digest) && w.readable(reply.headers, reply.status == 407)
  }

  /** A server that only challenges is sent every try, and its challenge is the answer. */
  lemma {:induction false} EndlessChallenges(w: World, req: Request, sent: seq<Call>)
    requires w.tls && req.path != "" && forall k :: |sent| <= k ==> Challenging(w, w.replies(k))
    ensures var o := Sent(w, req, sent);
            o.ok && (o.res.status == 401 || o.res.status == 407)
            && Issuing(o, sent) == 1 + if req.authorizations < 5 then 5 - req.authorizations else 0
    decreases Tries(req)
  {
    hide WithDefaults, Without, Issued, Tried;
    var reply, done := w.replies(|sent|), Completed(w, req);
    assert Challenging(w, reply);
    var res, more := Received(FRESH, reply), sent + [Issued(w, done)];
    assert [] + reply.headers == reply.headers;
    if Tries(req) > 0 { EndlessChallenges(w, Answering(w, Written(w, done), res), more); }
    TriedIs(w, req, FRESH, sent);
  }
}
