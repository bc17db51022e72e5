/** Following redirects and answering authentication challenges: the mutual recursion of
    sending, handling a reply and redirecting. */
module Redirects {
  import opened Bytes
  import Fields
  import Decimals

  const REDIRECT_MAX_COUNT: nat := 20
  const MAX_AUTHORIZATIONS: nat := 5

  datatype Error = Success | Connection | Read | ExceedRedirectCount | PeerCouldBeClosed | Unknown

  type Header = (string, string)

  /** A content provider, by its name; one registered without a length sends chunks. */
  datatype Provider = Provider(name: nat, length: Option<nat>)

  /** `redirects` counts down, `authorizations` counts up. */
  datatype Request =
    Request(method_: string, path: string, headers: seq<Header>, body: string, provider: Option<Provider>,
            redirects: nat, authorizations: nat)

  datatype Site = Site(scheme: string, host: string, port: nat)

  /** A request as it was handed to the connection to a site. */
  datatype Call = Call(site: Site, req: Request)

  /** What becomes of one request: no connection for it, or no usable reply, or a peer that
      seems to have closed a TLS connection, or a reply. */
  datatype Reply = NoConnection | NoReply | PeerClosed | Reply(status: int, headers: seq<Header>)

  /** The response object; `location` is where it says it was found. */
  datatype Response = Response(status: int, headers: seq<Header>, location: string)

  const FRESH := Response(-1, [], "")

  /** The parts of a location header that its pattern captures. */
  datatype Location = Location(scheme: string, host: string, port: Option<nat>, path: string, query: string)

  /** The replies by the number of requests issued before; the settings of a client: its site,
      whether it follows redirects, was built with TLS, uses a proxy, has credentials for
      either kind of challenge, and its default headers; and what is left open: how a location
      is taken apart, whether a challenge can be read, the headers a request has once it has
      been written, and the answer to a challenge. */
  datatype World =
    World(replies: nat -> Reply, site: Site, followLocation: bool, tls: bool, proxied: bool, digest: bool,
          proxyDigest: bool, defaults: seq<Header>, parse: string -> Option<Location>,
          readable: (seq<Header>, bool) -> bool, prepared: (Site, Request) -> seq<Header>,
          answer: (Request, Response) -> string)

  /** `sent` holds every request issued so far, oldest first. */
  datatype Outcome = Outcome(ok: bool, req: Request, res: Response, error: Error, sent: seq<Call>)

  // ------------------------------------------------------------- specification

  /** What is written behind the headers of a request. */
  datatype Payload = Nothing | Text(body: string) | Provided(provider: Provider)

  function PayloadOf(req: Request): Payload {
    if req.body != "" then Text(req.body)
    else if req.provider.Some? then Provided(req.provider.value)
    else Nothing
  }

  function Tries(req: Request): nat {
    if req.authorizations < MAX_AUTHORIZATIONS then MAX_AUTHORIZATIONS - req.authorizations else 0
  }

  predicate HasHeader(headers: seq<Header>, key: string) {
    exists i :: 0 <= i < |headers| && EqualIgnoreCase(headers[i].0, key)
  }

  /** The value of the first header of that name. */
  function HeaderValue(headers: seq<Header>, key: string): string {
    if headers == [] then ""
    else if EqualIgnoreCase(headers[0].0, key) then headers[0].1
    else HeaderValue(headers[1..], key)
  }

  /** Each default header from the `i`-th on is added unless the request has one of its name. */
  function WithDefaults(headers: seq<Header>, defaults: seq<Header>, i: nat): seq<Header>
    requires i <= |defaults|
    decreases |defaults| - i
  {
    if i == |defaults| then headers
    else WithDefaults(if HasHeader(headers, defaults[i].0) then headers else headers + [defaults[i]], defaults, i + 1)
  }

  function Without(headers: seq<Header>, key: string): seq<Header> {
    if headers == [] then []
    else (if EqualIgnoreCase(headers[0].0, key) then [] else [headers[0]]) + Without(headers[1..], key)
  }

  predicate IsRedirect(res: Response) { 300 < res.status < 400 }

  predicate IsChallenge(res: Response) { res.status == 401 || res.status == 407 }

  /** Whether the client answers a challenge to this request. */
  predicate Answers(w: World, req: Request, res: Response) {
    w.tls && IsChallenge(res) && Tries(req) > 0
    && (if res.status == 407 then w.proxyDigest else w.digest) && w.readable(res.headers, res.status == 407)
  }

  /** The request that answers a challenge: one more authorization, and its header replaced. */
  function Answering(w: World, req: Request, res: Response): Request
    requires IsChallenge(res)
  {
    var name := if res.status == 407 then "Proxy-Authorization" else "Authorization";
    var next := req.(authorizations := req.authorizations + 1);
    next.(headers := Without(req.headers, name) + [(name, w.answer(next, res))])
  }

  /** The request a redirect leads to; after See Other it becomes a GET without headers or
      text, but keeps its content provider. */
  function Redirected(req: Request, status: int, path: string): Request
    requires req.redirects > 0
  {
    var next := req.(path := path, redirects := req.redirects - 1);
    if status == 303 && req.method_ != "GET" && req.method_ != "HEAD"
    then next.(method_ := "GET", headers := [], body := "") else next
  }

  /** The site a location leads to: what it leaves out is taken from the present one, but the
      port goes by the scheme if there is one. */
  function TargetSite(site: Site, l: Location): Site {
    Site(if l.scheme == "" then site.scheme else l.scheme,
         if l.host == "" then site.host else l.host,
         if l.port.Some? then l.port.value
         else if l.scheme == "" then site.port
         else if l.scheme == "https" then 443 else 80)
  }

  function TargetPath(l: Location): string { Fields.UrlDecoded(if l.path == "" then "/" else l.path, true) + l.query }

  /** The client for a site: itself, or a new one that is given the settings except for the
      default headers. */
  function ClientFor(w: World, site: Site): World { if site == w.site then w else w.(site := site, defaults := []) }

  /** Where a redirect leads, if that can be read and reached. */
  function Destination(w: World, res: Response): Option<(Site, string)> {
    var text := HeaderValue(res.headers, "location");
    var l := w.parse(text);
    if text == "" || l.None? then None
    else
      var site := TargetSite(w.site, l.value);
      if site != w.site && site.scheme == "https" && !w.tls then None else Some((site, TargetPath(l.value)))
  }

  /** A response that does not say where it was found gets the location that led to it. */
  function Located(res: Response, location: string): Response {
    if res.location == "" then res.(location := location) else res
  }

  /** A reply is read into the response object, behind headers that are there already. */
  function Received(res: Response, reply: Reply): Response
    requires reply.Reply?
  {
    res.(status := reply.status, headers := res.headers + reply.headers)
  }

  function HostAndPort(site: Site): string {
    (if ':' in site.host then "[" + site.host + "]" else site.host) + ":" + Decimals.ToString(site.port)
  }

  /** A plain request to a proxy names the site. */
  function Issued(w: World, req: Request): Call {
    Call(w.site, if w.site.scheme != "https" && w.proxied
                 then req.(path := "http://" + HostAndPort(w.site) + req.path) else req)
  }

  function Written(w: World, req: Request): Request { req.(headers := w.prepared(w.site, req)) }

  function Completed(w: World, req: Request): Request { req.(headers := WithDefaults(req.headers, w.defaults, 0)) }

  function Followed(w: World, req: Request, res: Response, sent: seq<Call>): (o: Outcome)
    ensures o.req.redirects <= req.redirects && o.req.authorizations == req.authorizations
    ensures o.ok ==> o.error == Success && o.req.redirects < req.redirects
    decreases req.redirects + Tries(req), 0
  {
    if req.redirects == 0 then Outcome(false, req, res, ExceedRedirectCount, sent)
    else
      match Destination(w, res)
      case None => Outcome(false, req, res, Success, sent)
      case Some((site, path)) =>
        var o := Sent(ClientFor(w, site), Redirected(req, res.status, path), sent);
        if o.ok then o.(res := Located(o.res, HeaderValue(res.headers, "location")))
        else Outcome(false, req, res, o.error, o.sent)
  }

  /** What follows on a reply: a redirect, then an authentication if the result is a challenge. */
  function Replied(w: World, req: Request, res: Response, sent: seq<Call>): (o: Outcome)
    ensures o.req.redirects <= req.redirects && o.req.authorizations == req.authorizations
    ensures o.ok ==> o.error == Success
    decreases req.redirects + Tries(req), 1
  {
    var o := if IsRedirect(res) && w.followLocation then Followed(w, req, res, sent)
             else Outcome(true, Written(w, req), res, Success, sent);
    if Answers(w, o.req, o.res) then
      var again := Sent(w, Answering(w, o.req, o.res), o.sent);
      Outcome(again.ok, o.req, if again.ok then again.res else o.res, again.error, again.sent)
    else o
  }

  function Handled(w: World, req: Request, res: Response, sent: seq<Call>): (o: Outcome)
    ensures o.req.redirects <= req.redirects && o.req.authorizations == req.authorizations
    ensures o.ok ==> o.error == Success
    decreases req.redirects + Tries(req), 2
  {
    if req.path == "" then Outcome(false, req, res, Connection, sent)
    else
      var reply, more := w.replies(|sent|), sent + [Issued(w, req)];
      if reply == PeerClosed && w.site.scheme == "https" && !w.proxied
      then Outcome(false, Written(w, req), res, PeerCouldBeClosed, more)
      else if !reply.Reply? then Outcome(false, Written(w, req), res, Read, more)
      else Replied(w, req, Received(res, reply), more)
  }

  function Tried(w: World, req: Request, res: Response, sent: seq<Call>): (o: Outcome)
    ensures o.req.redirects <= req.redirects && o.req.authorizations == req.authorizations
    ensures o.ok ==> o.error == Success
    decreases req.redirects + Tries(req), 3
  {
    if w.replies(|sent|) == NoConnection then Outcome(false, req, res, Connection, sent)
    else
      var o := Handled(w, Completed(w, req), res, sent);
      if !o.ok && o.error == Success then o.(error := Unknown) else o
  }

  /** A call that failed because the peer seems to have closed a TLS connection is repeated
      once, with the request and the response as they are then. */
  function Sent(w: World, req: Request, sent: seq<Call>): (o: Outcome)
    ensures o.req.redirects <= req.redirects && o.req.authorizations == req.authorizations
    ensures o.ok ==> o.error == Success
    decreases req.redirects + Tries(req), 4
  {
    var o := Tried(w, req, FRESH, sent);
    if o.error == PeerCouldBeClosed then Tried(w, o.req, o.res, o.sent) else o
  }

  // ---------------------------------------------------------------- the client

  class Log {
    var calls: seq<Call>

    constructor ()
      ensures calls == []
    {
      calls := [];
    }
  }

  class Client {
    const world: World
    const log: Log

    constructor (world: World, log: Log)
      ensures this.world == world && this.log == log
    {
      this.world, this.log := world, log;
    }

    /** The assertion that only a failed call leaves this error holds; the failed call has
        closed the connection, so the second one opens a new one. */
    method Send(req0: Request) returns (ok: bool, req: Request, res: Response, error: Error)
      modifies log
      ensures Outcome(ok, req, res, error, log.calls) == Sent(world, req0, old(log.calls))
      decreases req0.redirects + Tries(req0), 4
    {
      ok, req, res, error := SendOnce(req0, FRESH);
      if error == PeerCouldBeClosed {
        assert !ok;
        ok, req, res, error := SendOnce(req, res);
      }
    }

    method SendOnce(req0: Request, res0: Response) returns (ok: bool, req: Request, res: Response, error: Error)
      modifies log
      ensures Outcome(ok, req, res, error, log.calls) == Tried(world, req0, res0, old(log.calls))
      decreases req0.redirects + Tries(req0), 3
    {
      if world.replies(|log.calls|) == NoConnection { return false, req0, res0, Connection; }
      var headers := req0.headers;
      for i := 0 to |world.defaults|
        invariant WithDefaults(headers, world.defaults, i) == WithDefaults(req0.headers, world.defaults, 0)
      {
        if !HasHeader(headers, world.defaults[i].0) { headers := headers + [world.defaults[i]]; }
      }
      ok, req, res, error := HandleRequest(req0.(headers := headers), res0);
      if !ok && error == Success { error := Unknown; }
    }

    method HandleRequest(req0: Request, res0: Response) returns (ok: bool, req: Request, res: Response, error: Error)
      modifies log
      ensures Outcome(ok, req, res, error, log.calls) == Handled(world, req0, res0, old(log.calls))
      decreases req0.redirects + Tries(req0), 2
    {
      req, res, error := req0, res0, Success;
      if req.path == "" { return false, req, res, Connection; }
      var wire := req;
      if world.site.scheme != "https" && world.proxied {
        wire := wire.(path := "http://" + HostAndPort(world.site) + req.path);
      }
      var reply := world.replies(|log.calls|);
      log.calls := log.calls + [Call(world.site, wire)];
      req := req.(headers := world.prepared(world.site, req0));
      if reply == PeerClosed && world.site.scheme == "https" && !world.proxied {
        return false, req, res, PeerCouldBeClosed;
      }
      if !reply.Reply? { return false, req, res, Read; }
      ok, res := true, res.(status := reply.status, headers := res.headers + reply.headers);
      if 300 < res.status < 400 && world.followLocation { ok, req, res, error := Redirect(req0, res); }
      if Answers(world, req, res) {
        var newRes, newReq;
        ok, newReq, newRes, error := Send(Answering(world, req, res));
        if ok { res := newRes; }
      }
    }

    method Redirect(req0: Request, res0: Response) returns (ok: bool, req: Request, res: Response, error: Error)
      modifies log
      ensures Outcome(ok, req, res, error, log.calls) == Followed(world, req0, res0, old(log.calls))
      decreases req0.redirects + Tries(req0), 0
    {
      req, res := req0, res0;
      if req.redirects == 0 { return false, req, res, ExceedRedirectCount; }
      var location := HeaderValue(res.headers, "location");
      if location == "" { return false, req, res, Success; }
      var parsed := world.parse(location);
      if parsed.None? { return false, req, res, Success; }
      var site, path := TargetSite(world.site, parsed.value), TargetPath(parsed.value);
      var cli := this;
      if site != world.site {
        if site.scheme == "https" && !world.tls { return false, req, res, Success; }
        cli := new Client(world.(site := site, defaults := []), log);
      }
      var newReq := req.(path := path, redirects := req.redirects - 1);
      if res.status == 303 && req.method_ != "GET" && req.method_ != "HEAD" {
        newReq := newReq.(method_ := "GET", headers := [], body := "");
      }
      var newRes;
      ok, newReq, newRes, error := cli.Send(newReq);
      if ok { req, res := newReq, Located(newRes, location); }
    }
  }

  // -------------------------------------------------- what the further requests carry

  /** The same method and text, or a GET without text; the content provider stays. */
  predicate Derived(q: Request, req: Request) {
    q.provider == req.provider
    && ((q.method_ == req.method_ && q.body == req.body) || (q.method_ == "GET" && q.body == ""))
  }

  predicate Extends(final: Request, all: seq<Call>, req: Request, sent: seq<Call>) {
    |sent| <= |all| && all[..|sent|] == sent && Derived(final, req)
    && forall k :: |sent| <= k < |all| ==> Derived(all[k].req, req)
  }

  lemma DerivedTwice(a: Request, b: Request, c: Request)
    requires Derived(a, b) && Derived(b, c)
    ensures Derived(a, c)
  {
  }

  lemma {:induction false} ExtendsTwice(r1: Request, a1: seq<Call>, r2: Request, a2: seq<Call>, next: Request,
                                        req: Request, sent: seq<Call>)
    requires Extends(r1, a1, req, sent) && Derived(next, req) && Extends(r2, a2, next, a1)
    ensures Extends(r2, a2, req, sent) && Extends(r1, a2, req, sent)
  {
    hide Derived;
    assert a2[..|sent|] == a2[..|a1|][..|sent|];
    forall k | |sent| <= k < |a2| ensures Derived(a2[k].req, req) {
      if k < |a1| { assert a2[k] == a2[..|a1|][k] == a1[k]; } else { DerivedTwice(a2[k].req, next, req); }
    }
    DerivedTwice(r2, next, req);
  }

  lemma StartExtends(w: World, req: Request, sent: seq<Call>)
    ensures Extends(req, sent, req, sent) && Extends(req, sent + [Issued(w, req)], req, sent)
    ensures Extends(Written(w, req), sent + [Issued(w, req)], req, sent) && Extends(Written(w, req), sent, req, sent)
  {
  }

  lemma DerivedFinal(final: Request, all: seq<Call>, req: Request, sent: seq<Call>)
    requires Extends(final, all, req, sent)
    ensures Derived(final, req)
  {
  }

  /** Headers do not matter. */
  lemma SameDerived(req: Request, headers: seq<Header>, sent: seq<Call>)
    ensures forall r, all :: Extends(r, all, req.(headers := headers), sent) <==> Extends(r, all, req, sent)
  {
  }

  lemma {:induction false} TriedExtends(w: World, req0: Request, res: Response, sent: seq<Call>)
    ensures var o := Tried(w, req0, res, sent); Extends(o.req, o.sent, req0, sent)
    decreases req0.redirects + Tries(req0), 3
  {
    hide Extends, Replied, WithDefaults;
    var reply, req := w.replies(|sent|), Completed(w, req0);
    StartExtends(w, req0, sent);
    StartExtends(w, req, sent);
    SameDerived(req0, req.headers, sent);
    if req.path != "" && reply.Reply? {
      var more, got := sent + [Issued(w, req)], Received(res, reply);
      var o := Replied(w, req, got, more);
      RepliedExtends(w, req, got, more);
      ExtendsTwice(req, more, o.req, o.sent, req, req, sent);
    }
  }

  /** Requests are only added, and each either repeats the method and the text of the
      original or is a GET without text; all have the original's content provider. */
  lemma {:induction false} SentExtends(w: World, req: Request, sent: seq<Call>)
    ensures var o := Sent(w, req, sent); Extends(o.req, o.sent, req, sent)
    decreases req.redirects + Tries(req), 4
  {
    hide Extends, Tried;
    TriedExtends(w, req, FRESH, sent);
    var o := Tried(w, req, FRESH, sent);
    if o.error == PeerCouldBeClosed {
      var again := Tried(w, o.req, o.res, o.sent);
      TriedExtends(w, o.req, o.res, o.sent);
      assert Derived(o.req, req) by { DerivedFinal(o.req, o.sent, req, sent); }
      ExtendsTwice(o.req, o.sent, again.req, again.sent, o.req, req, sent);
    }
  }

  lemma {:induction false} FollowedExtends(w: World, req: Request, res: Response, sent: seq<Call>)
    ensures var o := Followed(w, req, res, sent); Extends(o.req, o.sent, req, sent)
    decreases req.redirects + Tries(req), 0
  {
    hide Extends, Sent, Destination;
    StartExtends(w, req, sent);
    var to := Destination(w, res);
    if req.redirects > 0 && to.Some? {
      var next, there := Redirected(req, res.status, to.value.1), ClientFor(w, to.value.0);
      var o := Sent(there, next, sent);
      SentExtends(there, next, sent);
      ExtendsTwice(req, sent, o.req, o.sent, next, req, sent);
    }
  }

  lemma {:induction false} RepliedExtends(w: World, req: Request, res: Response, sent: seq<Call>)
    ensures var o := Replied(w, req, res, sent); Extends(o.req, o.sent, req, sent)
    decreases req.redirects + Tries(req), 1
  {
    hide Extends, Followed, Sent, Without;
    StartExtends(w, req, sent);
    var o := if IsRedirect(res) && w.followLocation then Followed(w, req, res, sent)
             else Outcome(true, Written(w, req), res, Success, sent);
    if IsRedirect(res) && w.followLocation { FollowedExtends(w, req, res, sent); }
    if Answers(w, o.req, o.res) {
      var next := Answering(w, o.req, o.res);
      var again := Sent(w, next, o.sent);
      SentExtends(w, next, o.sent);
      assert Derived(next, req) by { DerivedFinal(o.req, o.sent, req, sent); }
      ExtendsTwice(o.req, o.sent, again.req, again.sent, next, req, sent);
    }
  }

  // ------------------------------------------------------------ the first requests

  predicate Continues(all: seq<Call>, sent: seq<Call>) { |sent| <= |all| && all[..|sent|] == sent }

  lemma ContinuesTwice(a: seq<Call>, b: seq<Call>, c: seq<Call>)
    requires Continues(b, a) && Continues(c, b)
    ensures Continues(c, a)
  {
    assert c[..|a|] == c[..|b|][..|a|];
  }

  lemma {:induction false} SentContinues(w: World, req: Request, sent: seq<Call>)
    ensures Continues(Sent(w, req, sent).sent, sent)
  {
    hide Sent, Derived;
    SentExtends(w, req, sent);
  }

  lemma {:induction false} TriedContinues(w: World, req: Request, res: Response, sent: seq<Call>)
    ensures Continues(Tried(w, req, res, sent).sent, sent)
  {
    hide Tried, Derived;
    TriedExtends(w, req, res, sent);
  }

  lemma {:induction false} RepliedContinues(w: World, req: Request, res: Response, sent: seq<Call>)
    ensures Continues(Replied(w, req, res, sent).sent, sent)
  {
    hide Replied, Derived;
    RepliedExtends(w, req, res, sent);
  }

  lemma Reflexive(all: seq<Call>)
    ensures Continues(all, all)
  {
  }

  /** A call with a path and a connection begins with the request it was given, completed by
      the default headers. */
  lemma {:induction false} BeginsWith(w: World, req: Request, sent: seq<Call>)
    requires req.path != "" && w.replies(|sent|) != NoConnection
    ensures Continues(Sent(w, req, sent).sent, sent + [Issued(w, Completed(w, req))])
  {
    hide Replied, WithDefaults, Continues;
    var more, done := sent + [Issued(w, Completed(w, req))], Completed(w, req);
    var reply, o := w.replies(|sent|), Tried(w, req, FRESH, sent);
    assert Continues(more, more) by { Reflexive(more); }
    if reply.Reply? { RepliedContinues(w, done, Received(FRESH, reply), more); }
    assert o.sent == Handled(w, done, FRESH, sent).sent;
    assert Continues(o.sent, more);
    if o.error == PeerCouldBeClosed {
      TriedContinues(w, o.req, o.res, o.sent);
      ContinuesTwice(more, o.sent, Tried(w, o.req, o.res, o.sent).sent);
    }
  }

  lemma NamesConcat(a: seq<Header>, b: seq<Header>, key: string)
    ensures HasHeader(a + b, key) <==> HasHeader(a, key) || HasHeader(b, key)
  {
    var c := a + b;
    assert forall i :: 0 <= i < |a| ==> c[i] == a[i];
    assert forall i :: 0 <= i < |b| ==> c[|a| + i] == b[i];
    if HasHeader(c, key) {
      var i :| 0 <= i < |c| && EqualIgnoreCase(c[i].0, key);
      assert if i < |a| then c[i] == a[i] else c[i] == b[i - |a|];
    }
  }

  /** Headers that hold the name of `h` hold every name that equals it. */
  lemma SameName(headers: seq<Header>, h: Header, key: string)
    ensures HasHeader(headers, h.0) && HasHeader([h], key) ==> HasHeader(headers, key)
  {
  }

  lemma {:induction false} NamesWithDefaults(headers: seq<Header>, defaults: seq<Header>, i: nat, key: string)
    requires i <= |defaults|
    ensures HasHeader(WithDefaults(headers, defaults, i), key)
            <==> HasHeader(headers, key) || HasHeader(defaults[i..], key)
    decreases |defaults| - i
  {
    if i < |defaults| {
      var more, rest := headers + [defaults[i]], defaults[i..];
      assert rest[0] == defaults[i] && rest[1..] == defaults[i + 1..];
      NamesConcat(headers, [defaults[i]], key);
      NamesConcat([defaults[i]], rest[1..], key);
      assert [defaults[i]] + rest[1..] == rest;
      NamesWithDefaults(if HasHeader(headers, defaults[i].0) then headers else more, defaults, i + 1, key);
      SameName(headers, defaults[i], key);
    }
  }

  /** What a request with a usable reply comes to. */
  lemma {:induction false} TriedIs(w: World, req: Request, res: Response, sent: seq<Call>)
    requires req.path != "" && w.replies(|sent|).Reply?
    ensures var done := Completed(w, req);
            var o := Replied(w, done, Received(res, w.replies(|sent|)), sent + [Issued(w, done)]);
            Tried(w, req, res, sent) == if !o.ok && o.error == Success then o.(error := Unknown) else o
  {
    hide Replied, WithDefaults;
    var done := Completed(w, req);
    assert Handled(w, done, res, sent)
           == Replied(w, done, Received(res, w.replies(|sent|)), sent + [Issued(w, done)]);
  }

  /** What it comes to without a usable reply. */
  lemma {:induction false} TriedStops(w: World, req: Request, res: Response, sent: seq<Call>)
    requires req.path == "" || !w.replies(|sent|).Reply?
    ensures var o := Tried(w, req, res, sent);
            !o.ok && o.error != Success && o.req.redirects == req.redirects && |o.sent| <= |sent| + 1
            && (o.error == PeerCouldBeClosed ==>
                  w.replies(|sent|) == PeerClosed && w.site.scheme == "https" && !w.proxied)
  {
    hide Replied, WithDefaults;
    var o := Handled(w, Completed(w, req), res, sent);
    assert !o.ok && o.error != Success;
  }

  /** A followed redirect comes before whatever authentication or repetition adds. */
  lemma {:induction false} ContinuesFollowed(w: World, req: Request, sent: seq<Call>)
    requires w.followLocation && req.path != "" && w.replies(|sent|).Reply?
    requires IsRedirect(Received(FRESH, w.replies(|sent|)))
    ensures var done, res := Completed(w, req), Received(FRESH, w.replies(|sent|));
            Continues(Sent(w, req, sent).sent, Followed(w, done, res, sent + [Issued(w, done)]).sent)
  {
    hide Followed, WithDefaults, Without, Continues;
    var done, res := Completed(w, req), Received(FRESH, w.replies(|sent|));
    var more := sent + [Issued(w, done)];
    var o, once := Followed(w, done, res, more), Tried(w, req, FRESH, sent);
    TriedIs(w, req, FRESH, sent);
    assert once.sent == Replied(w, done, res, more).sent;
    Reflexive(o.sent);
    if Answers(w, o.req, o.res) { SentContinues(w, Answering(w, o.req, o.res), o.sent); }
    assert Continues(once.sent, o.sent);
    if once.error == PeerCouldBeClosed {
      TriedContinues(w, once.req, once.res, once.sent);
      ContinuesTwice(o.sent, once.sent, Tried(w, once.req, once.res, once.sent).sent);
    }
  }

  /** What a location says, or what holds if it says nothing. */
  function Said(text: string, otherwise: string): string { if text == "" then otherwise else text }

  /** The first reply is a redirect to this location, which the call follows. */
  predicate Redirecting(w: World, req: Request, sent: seq<Call>, l: Location) {
    w.followLocation && req.path != "" && req.redirects > 0
    && match w.replies(|sent|)
       case Reply(status, headers) =>
         300 < status < 400 && HeaderValue(headers, "location") != ""
         && w.parse(HeaderValue(headers, "location")) == Some(l)
         && (w.tls || Said(l.scheme, w.site.scheme) != "https")
         && Fields.UrlDecoded(Said(l.path, "/"), true) + l.query != "" && w.replies(|sent| + 1) != NoConnection
       case _ => false
  }

  /** The request a call issues second, when its first reply is a redirect. */
  lemma {:induction false} Resolved(w: World, req: Request, sent: seq<Call>, l: Location)
    requires Redirecting(w, req, sent, l)
    ensures var res := Received(FRESH, w.replies(|sent|));
            IsRedirect(res) && res.headers == w.replies(|sent|).headers
            && Destination(w, res) == Some((TargetSite(w.site, l), TargetPath(l))) && TargetPath(l) != ""
  {
    hide HeaderValue;
    var headers := w.replies(|sent|).headers;
    assert [] + headers == headers;
  }

  lemma At(all: seq<Call>, sent: seq<Call>, call: Call)
    requires Continues(all, sent + [call])
    ensures |all| > |sent| && all[|sent|] == call
  {
    assert all[|sent|] == all[..|sent| + 1][|sent|];
  }

  lemma {:induction false} SecondCall(w: World, req: Request, sent: seq<Call>, l: Location)
    requires Redirecting(w, req, sent, l)
    ensures var o, status := Sent(w, req, sent), w.replies(|sent|).status;
            var there := ClientFor(w, TargetSite(w.site, l));
            var next := Redirected(Completed(w, req), status, TargetPath(l));
            |o.sent| >= |sent| + 2 && o.sent[|sent| + 1] == Issued(there, Completed(there, next))
  {
    hide Sent, WithDefaults, Continues, Destination, Issued, TargetSite, TargetPath, Fields.UrlDecoded;
    var o, done, res := Sent(w, req, sent), Completed(w, req), Received(FRESH, w.replies(|sent|));
    Resolved(w, req, sent, l);
    var (site, path) := Destination(w, res).value;
    var more, there, next := sent + [Issued(w, done)], ClientFor(w, site), Redirected(done, res.status, path);
    var call := Issued(there, Completed(there, next));
    ContinuesFollowed(w, req, sent);
    BeginsWith(there, next, more);
    assert Followed(w, done, res, more).sent == Sent(there, next, more).sent;
    ContinuesTwice(more + [call], Sent(there, next, more).sent, o.sent);
    At(o.sent, more, call);
  }

  lemma {:induction false} NothingAdded(headers: seq<Header>, defaults: seq<Header>, i: nat)
    requires i <= |defaults| && forall j :: i <= j < |defaults| ==> HasHeader(headers, defaults[j].0)
    ensures WithDefaults(headers, defaults, i) == headers
    decreases |defaults| - i
  {
    if i < |defaults| { NothingAdded(headers, defaults, i + 1); }
  }

  lemma {:induction false} DefaultsOnce(headers: seq<Header>, defaults: seq<Header>)
    ensures var all := WithDefaults(headers, defaults, 0); WithDefaults(all, defaults, 0) == all
  {
    hide WithDefaults;
    forall j | 0 <= j < |defaults| ensures HasHeader(WithDefaults(headers, defaults, 0), defaults[j].0) {
      NamesWithDefaults(headers, defaults, 0, defaults[j].0);
      assert defaults[0..][j] == defaults[j];
    }
    NothingAdded(WithDefaults(headers, defaults, 0), defaults, 0);
  }

  /** The request after a redirect. What the location says about scheme, host and port decides
      where it goes, and the present site the rest, except that a scheme alone brings its own
      port. The path is decoded, or a slash, and the query behind it is not. There is one
      redirect less and the same content provider. See Other turns the request into a GET,
      unless it was a GET or HEAD, with the client's default headers only, or none on another
      site; such a GET is without a body if and only if there is no provider. Every other
      status repeats method, body and headers. */
  lemma {:induction false} AfterRedirect(w: World, req: Request, sent: seq<Call>, l: Location)
    requires Redirecting(w, req, sent, l)
    ensures var o, status, done := Sent(w, req, sent), w.replies(|sent|).status, Completed(w, req);
            |o.sent| >= |sent| + 2
            && var site, q, path := o.sent[|sent| + 1].site, o.sent[|sent| + 1].req,
                                    Fields.UrlDecoded(Said(l.path, "/"), true) + l.query;
               site.scheme == Said(l.scheme, w.site.scheme) && site.host == Said(l.host, w.site.host)
               && site.port == (match (l.port, l.scheme)
                                case (Some(port), _) => port
                                case (None, scheme) => if scheme == "https" then 443 else if scheme != "" then 80
                                                       else w.site.port)
               && q.path == (if site.scheme != "https" && w.proxied then "http://" + HostAndPort(site) + path else path)
               && q.redirects == req.redirects - 1 && q.authorizations == req.authorizations
               && q.provider == req.provider
               && if status == 303 && req.method_ !in {"GET", "HEAD"}
                  then q.method_ == "GET" && q.body == "" && (PayloadOf(q) == Nothing <==> req.provider == None)
                       && q.headers == WithDefaults([], if site == w.site then w.defaults else [], 0)
                  else q.method_ == req.method_ && PayloadOf(q) == PayloadOf(req) && q.headers == done.headers
  {
    hide Sent, WithDefaults, HostAndPort, Fields.UrlDecoded, HeaderValue;
    SecondCall(w, req, sent, l);
    DefaultsOnce(req.headers, w.defaults);
    NothingAdded(Completed(w, req).headers, [], 0);
    NothingAdded([], [], 0);
  }

  /** A redirect that cannot be followed, for want of redirects, of a location, or of TLS, makes
      the call fail after one request. */
  lemma {:induction false} NotFollowed(w: World, req: Request, sent: seq<Call>)
    requires w.followLocation && req.path != "" && w.replies(|sent|).Reply? && 300 < w.replies(|sent|).status < 400
    requires var text := HeaderValue(w.replies(|sent|).headers, "location");
             req.redirects == 0 || text == "" || w.parse(text) == None
             || (!w.tls && w.site.scheme != "https" && w.parse(text).value.scheme == "https")
    ensures var o := Sent(w, req, sent);
            !o.ok && o.sent == sent + [Issued(w, Completed(w, req))]
            && o.error == if req.redirects == 0 then ExceedRedirectCount else Unknown
  {
    hide WithDefaults, HeaderValue, Tried;
    var done, res := Completed(w, req), Received(FRESH, w.replies(|sent|));
    var headers := w.replies(|sent|).headers;
    assert [] + headers == headers;
    TriedIs(w, req, FRESH, sent);
    assert Replied(w, done, res, sent + [Issued(w, done)]) == Followed(w, done, res, sent + [Issued(w, done)]);
  }

  /** A location that names a site in full leads there from anywhere, and one that names none
      stays. */
  lemma {:induction false} LeadsTo(w: World, req: Request, sent: seq<Call>, to: Site, path: string, query: string)
    ensures to.scheme != "" && to.host != ""
            && Redirecting(w, req, sent, Location(to.scheme, to.host, Some(to.port), path, query)) ==>
              |Sent(w, req, sent).sent| >= |sent| + 2 && Sent(w, req, sent).sent[|sent| + 1].site == to
    ensures Redirecting(w, req, sent, Location("", "", None, path, query)) ==>
              |Sent(w, req, sent).sent| >= |sent| + 2 && Sent(w, req, sent).sent[|sent| + 1].site == w.site
  {
    hide Sent, WithDefaults, Redirecting, HostAndPort, Fields.UrlDecoded;
    if Redirecting(w, req, sent, Location(to.scheme, to.host, Some(to.port), path, query)) {
      AfterRedirect(w, req, sent, Location(to.scheme, to.host, Some(to.port), path, query));
    }
    if Redirecting(w, req, sent, Location("", "", None, path, query)) {
      AfterRedirect(w, req, sent, Location("", "", None, path, query));
    }
  }

  lemma Nameless(key: string)
    ensures !HasHeader([], key)
  {
  }

  /** After See Other a provider that sends chunks is called again, but the header that announces
      chunks is gone unless it is a default header of this client. */
  lemma {:induction false} ChunksUnannounced(w: World, req: Request, sent: seq<Call>, l: Location)
    requires Redirecting(w, req, sent, l) && w.replies(|sent|).status == 303 && req.method_ !in {"GET", "HEAD"}
    requires req.provider.Some? && req.provider.value.length.None?
    ensures var o := Sent(w, req, sent);
            |o.sent| >= |sent| + 2
            && var site, q := o.sent[|sent| + 1].site, o.sent[|sent| + 1].req;
               PayloadOf(q) == Provided(req.provider.value)
               && (HasHeader(q.headers, "Transfer-Encoding")
                   <==> site == w.site && HasHeader(w.defaults, "Transfer-Encoding"))
  {
    hide Sent, WithDefaults, HostAndPort, HasHeader, HeaderValue, Fields.UrlDecoded;
    AfterRedirect(w, req, sent, l);
    var key := "Transfer-Encoding";
    NamesWithDefaults([], w.defaults, 0, key);
    NamesWithDefaults([], [], 0, key);
    assert w.defaults[0..] == w.defaults;
    var none: seq<Header> := [];
    assert none[0..] == none;
    Nameless(key);
  }

  /** A reply that is neither a redirect to follow nor a challenge to answer is the result. */
  lemma {:induction false} PlainReply(w: World, req: Request, sent: seq<Call>)
    requires req.path != "" && w.replies(|sent|).Reply?
    requires var status := w.replies(|sent|).status;
             !(300 < status < 400 && w.followLocation)
             && (status !in {401, 407} || !Answers(w, Written(w, req), Received(FRESH, w.replies(|sent|))))
    ensures var done := Completed(w, req);
            Sent(w, req, sent) == Outcome(true, Written(w, done), Received(FRESH, w.replies(|sent|)), Success,
                                          sent + [Issued(w, done)])
  {
    hide WithDefaults, Tried;
    TriedIs(w, req, FRESH, sent);
  }

  lemma {:induction false} FirstValue(a: seq<Header>, b: seq<Header>, key: string)
    ensures HeaderValue(a + b, key) == if HasHeader(a, key) then HeaderValue(a, key) else HeaderValue(b, key)
  {
    if a == [] {
      assert a + b == b;
    } else {
      assert (a + b)[0] == a[0] && (a + b)[1..] == a[1..] + b;
      FirstValue(a[1..], b, key);
      NamesConcat([a[0]], a[1..], key);
      assert [a[0]] + a[1..] == a;
      assert HasHeader([a[0]], key) <==> EqualIgnoreCase(a[0].0, key) by { assert [a[0]][0] == a[0]; }
    }
  }

  /** The reply to a repeated call is read into the response of the failed one: what that one
      has read already, a redirect or a challenge, goes before the headers of the reply. */
  lemma {:induction false} StaleHeaders(w: World, req: Request, sent: seq<Call>, key: string)
    requires Tried(w, req, FRESH, sent).error == PeerCouldBeClosed
    requires var o := Tried(w, req, FRESH, sent);
             o.req.path != "" && w.replies(|o.sent|).Reply?
             && !(IsRedirect(Received(o.res, w.replies(|o.sent|))) && w.followLocation)
             && !Answers(w, o.req, Received(o.res, w.replies(|o.sent|)))
    ensures var o, final := Tried(w, req, FRESH, sent), Sent(w, req, sent);
            var reply := w.replies(|o.sent|);
            final.ok && final.res.status == reply.status
            && HeaderValue(final.res.headers, key)
               == if HasHeader(o.res.headers, key) then HeaderValue(o.res.headers, key)
                  else HeaderValue(reply.headers, key)
  {
    hide WithDefaults, Tried, HeaderValue, HasHeader;
    var o := Tried(w, req, FRESH, sent);
    var done, res := Completed(w, o.req), Received(o.res, w.replies(|o.sent|));
    TriedIs(w, o.req, o.res, o.sent);
    assert Replied(w, done, res, o.sent + [Issued(w, done)]).res == res;
    FirstValue(o.res.headers, w.replies(|o.sent|).headers, key);
  }

  // ------------------------------------------------------- the answer to a challenge

  lemma {:induction false} NoValue(headers: seq<Header>, key: string)
    requires !HasHeader(headers, key)
    ensures HeaderValue(headers, key) == ""
  {
    if headers != [] {
      assert !EqualIgnoreCase(headers[0].0, key);
      assert forall i :: 0 <= i < |headers[1..]| ==> headers[1..][i] == headers[i + 1];
      NoValue(headers[1..], key);
    }
  }

  lemma OneName(d: Header, key: string)
    ensures HasHeader([d], key) <==> EqualIgnoreCase(d.0, key)
    ensures HasHeader([d], key) ==> HeaderValue([d], key) == d.1
  {
    assert [d][0] == d;
  }

  lemma {:induction false} ValuesWithDefaults(headers: seq<Header>, defaults: seq<Header>, i: nat, key: string)
    requires i <= |defaults|
    ensures HeaderValue(WithDefaults(headers, defaults, i), key)
            == if HasHeader(headers, key) then HeaderValue(headers, key) else HeaderValue(defaults[i..], key)
    decreases |defaults| - i
  {
    hide HasHeader;
    if i == |defaults| {
      if !HasHeader(headers, key) { NoValue(headers, key); }
    } else {
      var d, more, rest := defaults[i], headers + [defaults[i]], defaults[i + 1..];
      assert defaults[i..] == [d] + rest;
      FirstValue(headers, [d], key);
      FirstValue([d], rest, key);
      NamesConcat(headers, [d], key);
      SameName(headers, d, key);
      OneName(d, key);
      ValuesWithDefaults(if HasHeader(headers, d.0) then headers else more, defaults, i + 1, key);
    }
  }

  lemma Alike(a: string, b: string, c: string)
    ensures EqualIgnoreCase(a, b) && EqualIgnoreCase(b, c) ==> EqualIgnoreCase(a, c)
    ensures EqualIgnoreCase(a, b) && EqualIgnoreCase(a, c) ==> EqualIgnoreCase(b, c)
  {
  }

  lemma {:induction false} WithoutValues(headers: seq<Header>, name: string, key: string)
    ensures HasHeader(Without(headers, name), key) <==> HasHeader(headers, key) && !EqualIgnoreCase(key, name)
    ensures !EqualIgnoreCase(key, name) ==> HeaderValue(Without(headers, name), key) == HeaderValue(headers, key)
  {
    hide EqualIgnoreCase, HasHeader;
    if headers == [] {
      Nameless(key);
    } else {
      var h, more := headers[0], headers[1..];
      var kept := if EqualIgnoreCase(h.0, name) then [] else [h];
      assert headers == [h] + more;
      WithoutValues(more, name, key);
      NamesConcat([h], more, key);
      NamesConcat(kept, Without(more, name), key);
      FirstValue(kept, Without(more, name), key);
      OneName(h, key);
      Nameless(key);
      Alike(h.0, key, name);
    }
  }

  /** The first reply is a challenge that the client answers. */
  predicate Challenged(w: World, req: Request, sent: seq<Call>) {
    w.tls && req.path != "" && req.authorizations < 5
    && match w.replies(|sent|)
       case Reply(status, headers) =>
         (status == 401 || status == 407) && (if status == 401 then w.digest else w.proxyDigest)
         && w.readable(headers, status == 407) && w.replies(|sent| + 1) != NoConnection
       case _ => false
  }

  lemma {:induction false} AnsweredNow(w: World, req: Request, res: Response, sent: seq<Call>)
    requires IsChallenge(res) && Answers(w, Written(w, req), res)
    ensures Replied(w, req, res, sent).sent == Sent(w, Answering(w, Written(w, req), res), sent).sent
  {
    hide Sent, Without, Followed;
  }

  lemma {:induction false} SentAfterTried(w: World, req: Request, sent: seq<Call>)
    ensures Continues(Sent(w, req, sent).sent, Tried(w, req, FRESH, sent).sent)
  {
    hide Tried, Continues;
    var o := Tried(w, req, FRESH, sent);
    Reflexive(o.sent);
    if o.error == PeerCouldBeClosed { TriedContinues(w, o.req, o.res, o.sent); }
  }

  lemma {:induction false} SecondTry(w: World, req: Request, sent: seq<Call>)
    requires Challenged(w, req, sent)
    ensures var o, done, res := Sent(w, req, sent), Completed(w, req), Received(FRESH, w.replies(|sent|));
            |o.sent| >= |sent| + 2 && IsChallenge(res)
            && o.sent[|sent| + 1] == Issued(w, Completed(w, Answering(w, Written(w, done), res)))
  {
    hide Sent, WithDefaults, Without, Continues, Issued, Tried;
    var done, res := Completed(w, req), Received(FRESH, w.replies(|sent|));
    var headers := w.replies(|sent|).headers;
    assert [] + headers == headers;
    var more, next := sent + [Issued(w, done)], Answering(w, Written(w, done), res);
    var call, o := Issued(w, Completed(w, next)), Sent(w, req, sent);
    TriedIs(w, req, FRESH, sent);
    var once := Tried(w, req, FRESH, sent);
    BeginsWith(w, next, more);
    assert once.sent == Sent(w, next, more).sent by { AnsweredNow(w, done, res, more); }
    assert Continues(o.sent, once.sent) by { SentAfterTried(w, req, sent); }
    ContinuesTwice(more + [call], once.sent, o.sent);
    At(o.sent, more, call);
  }

  lemma Swapped(a: string, b: string)
    ensures EqualIgnoreCase(a, b) <==> EqualIgnoreCase(b, a)
  {
  }

  /** The request that answers a challenge is the one that was challenged, with one
      authorization more: a 401 is answered in Authorization and a 407 in Proxy-Authorization,
      and every other header keeps its value, or has the default. */
  lemma {:induction false} AfterChallenge(w: World, req: Request, sent: seq<Call>, key: string)
    requires Challenged(w, req, sent)
    ensures var o, done, res := Sent(w, req, sent), Completed(w, req), Received(FRESH, w.replies(|sent|));
            var name := if w.replies(|sent|).status == 401 then "Authorization" else "Proxy-Authorization";
            |o.sent| >= |sent| + 2
            && var q, was := o.sent[|sent| + 1].req, w.prepared(w.site, done);
               o.sent[|sent| + 1].site == w.site && q.redirects == req.redirects
               && q.authorizations == req.authorizations + 1
               && q.method_ == req.method_ && PayloadOf(q) == PayloadOf(req)
               && HeaderValue(q.headers, key)
                  == if EqualIgnoreCase(name, key)
                     then w.answer(Written(w, done).(authorizations := req.authorizations + 1), res)
                     else if HasHeader(was, key) then HeaderValue(was, key) else HeaderValue(w.defaults, key)
  {
    hide Sent, WithDefaults, Without, HasHeader, HeaderValue, EqualIgnoreCase, HostAndPort;
    var done, res := Completed(w, req), Received(FRESH, w.replies(|sent|));
    var name := if res.status == 401 then "Authorization" else "Proxy-Authorization";
    SecondTry(w, req, sent);
    var next, was := Answering(w, Written(w, done), res), w.prepared(w.site, done);
    var own := (name, w.answer(Written(w, done).(authorizations := req.authorizations + 1), res));
    assert next.headers == Without(was, name) + [own];
    ValuesWithDefaults(next.headers, w.defaults, 0, key);
    assert w.defaults[0..] == w.defaults;
    WithoutValues(was, name, key);
    FirstValue(Without(was, name), [own], key);
    NamesConcat(Without(was, name), [own], key);
    OneName(own, key);
    assert EqualIgnoreCase(key, name) <==> EqualIgnoreCase(name, key) by { Swapped(key, name); }
  }

  // ------------------------------------------------------------ what a call returns

  lemma {:induction false} FollowedIs(w: World, req: Request, res: Response, sent: seq<Call>)
    requires req.redirects > 0 && Destination(w, res).Some?
    ensures var (site, path) := Destination(w, res).value;
            var o := Sent(ClientFor(w, site), Redirected(req, res.status, path), sent);
            Followed(w, req, res, sent)
            == if o.ok then o.(res := Located(o.res, HeaderValue(res.headers, "location")))
               else Outcome(false, req, res, o.error, o.sent)
  {
    hide Sent, Destination;
  }

  lemma NotRepeated(w: World, req: Request, sent: seq<Call>)
    ensures Tried(w, req, FRESH, sent).error != PeerCouldBeClosed ==> Sent(w, req, sent) == Tried(w, req, FRESH, sent)
  {
  }

  /** The result of a followed redirect is the reply to the further request, and says that it was
      found at the location that led there. */
  lemma {:induction false} FoundAt(w: World, req: Request, sent: seq<Call>, l: Location)
    requires Redirecting(w, req, sent, l)
    requires match w.replies(|sent| + 1)
             case Reply(status, _) => !(300 < status < 400) && status !in {401, 407}
             case _ => false
    ensures var o, reply := Sent(w, req, sent), w.replies(|sent| + 1);
            o.ok && o.error == Success && |o.sent| == |sent| + 2 && o.req.redirects == req.redirects - 1
            && o.res == Response(reply.status, reply.headers, HeaderValue(w.replies(|sent|).headers, "location"))
  {
    hide Sent, Tried, Followed, WithDefaults, HeaderValue, Destination, TargetSite, TargetPath, Fields.UrlDecoded,
         Issued;
    var done, res := Completed(w, req), Received(FRESH, w.replies(|sent|));
    Resolved(w, req, sent, l);
    var (site, path) := Destination(w, res).value;
    var more, there, next := sent + [Issued(w, done)], ClientFor(w, site), Redirected(done, res.status, path);
    PlainReply(there, next, more);
    var headers := w.replies(|sent| + 1).headers;
    assert [] + headers == headers;
    var o := Followed(w, done, res, more);
    assert o.ok && o.res.status == w.replies(|sent| + 1).status by { FollowedIs(w, done, res, more); }
    var further := Sent(there, next, more);
    assert o == further.(res := Located(further.res, HeaderValue(res.headers, "location"))) by {
      FollowedIs(w, done, res, more);
    }
    assert Replied(w, done, res, more) == o;
    TriedIs(w, req, FRESH, sent);
    assert Sent(w, req, sent) == o by { NotRepeated(w, req, sent); }
  }

  /** A call without a reply fails without a response: nothing is issued when there is no
      connection or no path, and otherwise the reply could not be read. */
  lemma {:induction false} Unanswered(w: World, req: Request, sent: seq<Call>)
    requires req.path == "" || !w.replies(|sent|).Reply?
    requires req.path != "" && w.replies(|sent|) == PeerClosed ==> w.site.scheme != "https" || w.proxied
    ensures var o := Sent(w, req, sent);
            !o.ok && o.res == FRESH
            && if w.replies(|sent|) == NoConnection || req.path == "" then o.error == Connection && o.sent == sent
               else o.error == Read && o.sent == sent + [Issued(w, Completed(w, req))]
  {
    hide Sent, Replied, WithDefaults;
    var o := Handled(w, Completed(w, req), FRESH, sent);
    assert !o.ok && o.error != Success;
    NotRepeated(w, req, sent);
  }

  lemma {:induction false} AnsweredFully(w: World, req: Request, sent: seq<Call>)
    requires Challenged(w, req, sent)
    ensures var done, res := Completed(w, req), Received(FRESH, w.replies(|sent|));
            var again := Sent(w, Answering(w, Written(w, done), res), sent + [Issued(w, done)]);
            Tried(w, req, FRESH, sent)
            == Outcome(again.ok, Written(w, done), if again.ok then again.res else res,
                       if !again.ok && again.error == Success then Unknown else again.error, again.sent)
  {
    hide Sent, WithDefaults, Without, Followed, Issued;
    var headers := w.replies(|sent|).headers;
    assert [] + headers == headers;
    TriedIs(w, req, FRESH, sent);
  }

  /** The result of an answered challenge is the reply to the further request, or the challenge
      if there is none. */
  lemma {:induction false} ChallengeResult(w: World, req: Request, sent: seq<Call>)
    requires Challenged(w, req, sent)
    requires var next := w.replies(|sent| + 1);
             next == NoReply || (next.Reply? && !(300 < next.status < 400) && next.status !in {401, 407})
    ensures var o, challenge, next := Sent(w, req, sent), w.replies(|sent|), w.replies(|sent| + 1);
            |o.sent| == |sent| + 2
            && if next.Reply? then o.ok && o.error == Success && o.res == Response(next.status, next.headers, "")
               else !o.ok && o.error == Read && o.res == Response(challenge.status, challenge.headers, "")
  {
    hide Sent, Tried, WithDefaults, Without, Issued;
    var done, res := Completed(w, req), Received(FRESH, w.replies(|sent|));
    var more, next := sent + [Issued(w, done)], Answering(w, Written(w, done), res);
    var headers := w.replies(|sent|).headers;
    assert [] + headers == headers;
    AnsweredFully(w, req, sent);
    NotRepeated(w, req, sent);
    match w.replies(|more|)
    case Reply(_, headers) =>
      assert [] + headers == headers;
      PlainReply(w, next, more);
    case _ => Unanswered(w, next, more);
  }

  /** The authority of a site is its host, in brackets if it holds a colon, and its port in
      decimal digits. */
  lemma {:induction false} AuthorityMeans(site: Site)
    ensures exists digits: string ::
              HostAndPort(site) == (if ':' in site.host then "[" + site.host + "]" else site.host) + ":" + digits
              && digits != "" && Decimals.AllDigits(digits) && Decimals.ValueOf(digits) == site.port
  {
    Decimals.DecRoundTrip(site.port);
    var digits := Decimals.ToString(site.port);
    assert HostAndPort(site) == (if ':' in site.host then "[" + site.host + "]" else site.host) + ":" + digits;
  }
}
