/** Scripts of replies that keep a call busy as long as possible, and how long they are. */
module RedirectScripts {
  import opened Bytes
  import opened Redirects

  const REDIRECTS := Reply(302, [("Location", "/")])
  const CHALLENGES := Reply(401, [])

  type Script = seq<Reply>

  function LongestOf(all: seq<Script>): (s: Script)
    requires all != []
    ensures s in all && forall i :: 0 <= i < |all| ==> |all[i]| <= |s|
  {
    if |all| == 1 then all[0]
    else
      var s := LongestOf(all[1..]);
      if |all[0]| >= |s| then all[0] else s
  }

  // ------------------------------------------------------------------- scripts

  // For a request with `r` redirects and `t` tries left. `q` is what the request has left in
  // the end, and `closes` allows for peers that close a TLS connection.

  /** One attempt that ends with an answer. */
  function OnceAnswered(closes: bool, r: nat, t: nat, q: nat): Script
    requires q <= r
    decreases t, r, 0
  {
    if q == r then [CHALLENGES] + (if t > 0 then Most(closes, r, t - 1) else [])
    else [REDIRECTS] + CallAnswered(closes, r - 1, t, q) + (if t > 0 then Most(closes, q, t - 1) else [])
  }

  /** One attempt that ends with a closed connection. */
  function OnceClosed(r: nat, t: nat, q: nat): Script
    requires Least(r, t, 0) <= q <= r
    decreases t, r, 0
  {
    if q == r then
      LongestOf([[PeerClosed]]
                + (if r > 0 then [[REDIRECTS] + CallClosed(r - 1, t)] else [])
                + (if t > 0 then [[CHALLENGES] + CallClosed(r, t - 1)] else []))
    else [REDIRECTS] + CallAnswered(true, r - 1, t, q) + CallClosed(q, t - 1)
  }

  /** The fewest redirects, `q` or more, a request can have left behind a closed connection. */
  function Least(r: nat, t: nat, q: nat): nat { if t == 0 then r else q }

  /** A call that ends with an answer, perhaps after a repetition. */
  function CallAnswered(closes: bool, r: nat, t: nat, q: nat): Script
    requires q <= r
    decreases t, r, 1
  {
    var once, least := OnceAnswered(closes, r, t, q), Least(r, t, q);
    if !closes then once
    else LongestOf([once] + seq(r + 1 - least, i requires 0 <= i < r + 1 - least =>
                                  OnceClosed(r, t, least + i) + OnceAnswered(true, least + i, t, q)))
  }

  function Closing(r: nat, t: nat): Script
    decreases t, r, 1
  {
    var least := Least(r, t, 0);
    LongestOf(seq(r + 1 - least, i requires 0 <= i < r + 1 - least => OnceClosed(r, t, least + i)))
  }

  /** A call that ends with a closed connection, for the second time. */
  function CallClosed(r: nat, t: nat): Script
    decreases t, r, 2
  {
    var least := Least(r, t, 0);
    LongestOf(seq(r + 1 - least, i requires 0 <= i < r + 1 - least =>
                    OnceClosed(r, t, least + i) + Closing(least + i, t)))
  }

  /** A longest script for a call. */
  function Most(closes: bool, r: nat, t: nat): Script
    decreases t, r, 2
  {
    LongestOf(seq(r + 1, q requires 0 <= q < r + 1 => CallAnswered(closes, r, t, q)))
  }

  // --------------------------------------------------- none of them is too short

  lemma {:induction false} AnsweredOnce(closes: bool, r: nat, t: nat, q: nat)
    requires q <= r
    ensures |OnceAnswered(closes, r, t, q)| <= |CallAnswered(closes, r, t, q)|
  {
    hide OnceAnswered, OnceClosed, LongestOf;
    var least := Least(r, t, q);
    var all := [OnceAnswered(closes, r, t, q)]
               + seq(r + 1 - least, i requires 0 <= i < r + 1 - least =>
                       OnceClosed(r, t, least + i) + OnceAnswered(true, least + i, t, q));
    assert all[0] == OnceAnswered(closes, r, t, q);
  }

  lemma {:induction false} AnsweredTwice(r: nat, t: nat, p: nat, q: nat)
    requires Least(r, t, q) <= p <= r && q <= p
    ensures |OnceClosed(r, t, p)| + |OnceAnswered(true, p, t, q)| <= |CallAnswered(true, r, t, q)|
  {
    hide OnceAnswered, OnceClosed, LongestOf;
    var least := Least(r, t, q);
    var twice := seq(r + 1 - least, i requires 0 <= i < r + 1 - least =>
                       OnceClosed(r, t, least + i) + OnceAnswered(true, least + i, t, q));
    var all := [OnceAnswered(true, r, t, q)] + twice;
    assert all[1 + (p - least)] == twice[p - least] == OnceClosed(r, t, p) + OnceAnswered(true, p, t, q);
  }

  lemma {:induction false} ClosedOnce(r: nat, t: nat)
    ensures |OnceClosed(r, t, r)| >= 1
    ensures r > 0 ==> |OnceClosed(r, t, r)| >= 1 + |CallClosed(r - 1, t)|
    ensures t > 0 ==> |OnceClosed(r, t, r)| >= 1 + |CallClosed(r, t - 1)|
  {
    hide CallClosed, LongestOf;
    var all := [[PeerClosed]]
               + (if r > 0 then [[REDIRECTS] + CallClosed(r - 1, t)] else [])
               + (if t > 0 then [[CHALLENGES] + CallClosed(r, t - 1)] else []);
    assert all[0] == [PeerClosed];
    assert r > 0 ==> all[1] == [REDIRECTS] + CallClosed(r - 1, t);
    assert t > 0 ==> all[|all| - 1] == [CHALLENGES] + CallClosed(r, t - 1);
  }

  lemma {:induction false} ClosedTwice(r: nat, t: nat, p: nat, q: nat)
    requires Least(r, t, 0) <= p <= r && Least(p, t, 0) <= q <= p
    ensures |OnceClosed(r, t, p)| + |OnceClosed(p, t, q)| <= |CallClosed(r, t)|
  {
    hide OnceClosed, LongestOf;
    var least, last := Least(r, t, 0), Least(p, t, 0);
    var all := seq(r + 1 - least, i requires 0 <= i < r + 1 - least =>
                     OnceClosed(r, t, least + i) + Closing(least + i, t));
    var ends := seq(p + 1 - last, i requires 0 <= i < p + 1 - last => OnceClosed(p, t, last + i));
    assert all[p - least] == OnceClosed(r, t, p) + Closing(p, t);
    assert ends[q - last] == OnceClosed(p, t, q);
  }

  lemma {:induction false} AtMost(closes: bool, r: nat, t: nat, q: nat)
    requires q <= r
    ensures |CallAnswered(closes, r, t, q)| <= |Most(closes, r, t)|
  {
    hide CallAnswered, LongestOf;
    var all := seq(r + 1, p requires 0 <= p < r + 1 => CallAnswered(closes, r, t, p));
    assert all[q] == CallAnswered(closes, r, t, q);
  }

  lemma {:induction false} MostIs(closes: bool, r: nat, t: nat) returns (q: nat)
    ensures q <= r && Most(closes, r, t) == CallAnswered(closes, r, t, q)
  {
    hide CallAnswered, LongestOf;
    var all := seq(r + 1, p requires 0 <= p < r + 1 => CallAnswered(closes, r, t, p));
    q :| 0 <= q < |all| && all[q] == LongestOf(all);
  }

  lemma {:induction false} CallAnsweredIs(r: nat, t: nat, q: nat) returns (twice: bool, p: nat)
    requires q <= r
    ensures q <= p && Least(r, t, q) <= p <= r
    ensures CallAnswered(true, r, t, q)
            == if twice then OnceClosed(r, t, p) + OnceAnswered(true, p, t, q) else OnceAnswered(true, r, t, q)
  {
    hide OnceAnswered, OnceClosed, LongestOf;
    var least := Least(r, t, q);
    var all := [OnceAnswered(true, r, t, q)]
               + seq(r + 1 - least, i requires 0 <= i < r + 1 - least =>
                       OnceClosed(r, t, least + i) + OnceAnswered(true, least + i, t, q));
    var i :| 0 <= i < |all| && all[i] == LongestOf(all);
    twice, p := i > 0, if i > 0 then least + i - 1 else r;
  }

  lemma {:induction false} ClosingIs(r: nat, t: nat) returns (q: nat)
    ensures Least(r, t, 0) <= q <= r && Closing(r, t) == OnceClosed(r, t, q)
  {
    hide OnceClosed, LongestOf;
    var least := Least(r, t, 0);
    var all := seq(r + 1 - least, i requires 0 <= i < r + 1 - least => OnceClosed(r, t, least + i));
    var i :| 0 <= i < |all| && all[i] == LongestOf(all);
    q := least + i;
  }

  lemma {:induction false} CallClosedIs(r: nat, t: nat) returns (p: nat, q: nat)
    ensures Least(r, t, 0) <= p <= r && Least(p, t, 0) <= q <= p
    ensures CallClosed(r, t) == OnceClosed(r, t, p) + OnceClosed(p, t, q)
  {
    hide OnceClosed, Closing, LongestOf;
    var least := Least(r, t, 0);
    var all := seq(r + 1 - least, i requires 0 <= i < r + 1 - least =>
                     OnceClosed(r, t, least + i) + Closing(least + i, t));
    var i :| 0 <= i < |all| && all[i] == LongestOf(all);
    p := least + i;
    q := ClosingIs(p, t);
  }

  lemma {:induction false} CallClosedNoLonger(r: nat, t: nat)
    ensures |CallClosed(r, t)| <= |Most(true, r, t)|
    decreases t, r, 1
  {
    hide OnceAnswered, OnceClosed, CallClosed, CallAnswered, Most;
    var p, p2 := CallClosedIs(r, t);
    var q := ClosedNoLonger(p, t, p2);
    AnsweredTwice(r, t, p, q);
    AtMost(true, r, t, q);
  }

  /** An attempt that ends with a closed connection is no longer than one with an answer. */
  lemma {:induction false} ClosedNoLonger(r: nat, t: nat, p: nat) returns (q: nat)
    requires Least(r, t, 0) <= p <= r
    ensures q <= r && |OnceClosed(r, t, p)| <= |OnceAnswered(true, r, t, q)|
    decreases t, r, 0
  {
    hide CallAnswered, CallClosed, Most;
    q := r;
    if p < r {
      CallClosedNoLonger(p, t - 1);
      q := p;
    } else {
      var s := OnceClosed(r, t, r);
      if r > 0 && s == [REDIRECTS] + CallClosed(r - 1, t) {
        CallClosedNoLonger(r - 1, t);
        q := MostIs(true, r - 1, t);
      } else if t > 0 && s == [CHALLENGES] + CallClosed(r, t - 1) {
        CallClosedNoLonger(r, t - 1);
      } else {
        assert s == [PeerClosed];
      }
    }
  }

  // ---------------------------------------------------------------- how long they are

  /** With `r - q + 1` answers in a chain of redirects, each answered challenge starts afresh. */
  function Chain(r: nat, t: nat, q: nat): nat
    requires q <= r
  {
    var links: nat, each: nat := r - q + 1, 1 + if t > 0 then |Most(false, q, t - 1)| else 0;
    links * each
  }

  lemma {:induction false} ChainLength(r: nat, t: nat, q: nat)
    requires q <= r
    ensures |CallAnswered(false, r, t, q)| == Chain(r, t, q)
    decreases r
  {
    hide Most;
    var again := if t > 0 then |Most(false, q, t - 1)| else 0;
    if q < r {
      ChainLength(r - 1, t, q);
      assert (r - q + 1) * (1 + again) == (r - 1 - q + 1) * (1 + again) + (1 + again);
    }
  }

  /** Without closed connections a longest script spends its redirects in the best way: the
      length is the greatest product of the chain's length and what each of its links adds. */
  lemma {:induction false} MostIsBestChain(r: nat, t: nat)
    ensures forall q: nat :: q <= r ==> Chain(r, t, q) <= |Most(false, r, t)|
    ensures exists q: nat :: q <= r && |Most(false, r, t)| == Chain(r, t, q)
  {
    hide CallAnswered, Most, Chain;
    forall q: nat | q <= r ensures Chain(r, t, q) <= |Most(false, r, t)| {
      ChainLength(r, t, q);
      AtMost(false, r, t, q);
    }
    var q := MostIs(false, r, t);
    ChainLength(r, t, q);
  }

  lemma PowerGrows(n: nat)
    ensures Pow2(n) >= n + 1
  {
  }

  lemma {:induction false} OnceClosedIs(r: nat)
    ensures |OnceClosed(r, 0, r)| == 1 + if r > 0 then |CallClosed(r - 1, 0)| else 0
  {
    hide CallClosed;
    ClosedOnce(r, 0);
  }

  lemma {:induction false} DoublingClosed(r: nat)
    ensures |OnceClosed(r, 0, r)| == Pow2(r + 1) - 1
    ensures |CallClosed(r, 0)| == 2 * |OnceClosed(r, 0, r)|
    decreases r
  {
    hide OnceClosed;
    var p, q := CallClosedIs(r, 0);
    if r > 0 { DoublingClosed(r - 1); }
    OnceClosedIs(r);
  }

  lemma {:induction false} DoublingAnswered(r: nat, q: nat)
    requires q <= r && |OnceAnswered(true, r, 0, q)| <= |OnceClosed(r, 0, r)|
    ensures |CallAnswered(true, r, 0, q)| == |OnceClosed(r, 0, r)| + |OnceAnswered(true, r, 0, q)|
  {
    hide OnceAnswered, OnceClosed, CallAnswered;
    var twice, p := CallAnsweredIs(r, 0, q);
    AnsweredTwice(r, 0, r, q);
  }

  /** A closed connection at the end of the redirects makes every call on the way repeat. */
  lemma {:induction false} Doubling(r: nat, q: nat)
    requires q <= r
    ensures |OnceClosed(r, 0, r)| == Pow2(r + 1) - 1
    ensures |OnceAnswered(true, r, 0, q)| <= Pow2(r + 1) - 1
    ensures q == 0 ==> |OnceAnswered(true, r, 0, q)| == Pow2(r + 1) - 1
    decreases r, q
  {
    hide CallAnswered, CallClosed, Most, LongestOf;
    DoublingClosed(r);
    if q < r {
      Doubling(r - 1, q);
      DoublingAnswered(r - 1, q);
    } else {
      PowerGrows(r + 1);
    }
  }

  /** Without authentication: one request more than redirects, or, if connections can be found
      closed, about as many as there are ways down a chain of calls that are all repeated. */
  lemma {:induction false} MostWithoutTries(closes: bool, r: nat)
    ensures |Most(closes, r, 0)| == if closes then Pow2(r + 2) - 2 else r + 1
  {
    hide CallAnswered, Most, OnceAnswered, OnceClosed;
    var q := MostIs(closes, r, 0);
    AtMost(closes, r, 0, 0);
    if closes {
      Doubling(r, q);
      DoublingAnswered(r, q);
      Doubling(r, 0);
      DoublingAnswered(r, 0);
    } else {
      ChainLength(r, 0, q);
      ChainLength(r, 0, 0);
    }
  }
}
