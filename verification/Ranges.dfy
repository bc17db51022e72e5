/** Validating parsed byte ranges against a content length (sections 14.1.2 and 14.2 of
    RFC 9110). The ranges are rewritten where they lie. */
module Ranges {
  import opened Decimals
  import opened RangeHeader

  const RANGE_MAX_COUNT := 1024

  // ------------------------------------------------------------- specification

  /** The bytes a parsed range asks for: from a position on, the last so many, or between
      two positions. */
  predicate Asks(r: Range, len: nat, b: nat) {
    if r.1 == -1 then r.0 <= b < len
    else if r.0 == -1 then len - r.1 <= b < len
    else r.0 <= b <= r.1 && b < len
  }

  function Normalized(r: Range, len: nat): Range {
    var all := if r.0 == -1 && r.1 == -1 then (0, len) else r;
    var placed := if all.0 == -1 then (len - all.1, len - 1) else all;
    if placed.1 == -1 || placed.1 >= len then (placed.0, len - 1) else placed
  }

  function NormalizedAll(ranges: seq<Range>, len: nat): (r: seq<Range>)
    ensures |r| == |ranges|
  {
    seq(|ranges|, i requires 0 <= i < |ranges| => Normalized(ranges[i], len))
  }

  predicate Inside(r: Range, len: nat) { 0 <= r.0 <= r.1 < len }

  predicate Overlaps(n: seq<Range>, i: nat)
    requires i < |n|
  {
    exists j :: 0 <= j < i && n[i].0 <= n[j].1
  }

  function OverlapCount(n: seq<Range>, k: nat): nat
    requires k <= |n|
  {
    if k == 0 then 0 else OverlapCount(n, k - 1) + if Overlaps(n, k - 1) then 1 else 0
  }

  predicate Ascending(n: seq<Range>, k: nat)
    requires k <= |n|
  {
    forall i, j :: 0 <= i < j < k ==> n[i].0 < n[j].0
  }

  predicate AllInside(n: seq<Range>, k: nat, len: nat)
    requires k <= |n|
  {
    forall i :: 0 <= i < k ==> Inside(n[i], len)
  }

  /** The first `k` ranges lie inside the content, start in ascending order, and at most two
      of them reach back into an earlier one. */
  predicate Acceptable(n: seq<Range>, k: nat, len: nat)
    requires k <= |n|
  {
    AllInside(n, k, len) && Ascending(n, k) && OverlapCount(n, k) <= 2
  }

  /** The last position reached by the first `k` ranges. */
  function Reach(n: seq<Range>, k: nat): int
    requires k <= |n|
  {
    if k == 0 then -1 else if n[k - 1].1 > Reach(n, k - 1) then n[k - 1].1 else Reach(n, k - 1)
  }

  function Selected(n: seq<Range>, k: nat): int
    requires k <= |n|
  {
    if k == 0 then 0 else Selected(n, k - 1) + n[k - 1].1 - n[k - 1].0 + 1
  }

  // ------------------------------------------------------------------- the check

  predicate Applies(ranges: seq<Range>, status: int) { ranges != [] && 200 <= status < 300 }

  method RangeError(ranges: array<Range>, status: int, contentLength: nat, bodySize: nat) returns (error: bool)
    modifies ranges
    ensures ranges.Length == 0 || status < 200 || status >= 300 ==> !error && ranges[..] == old(ranges[..])
    ensures ranges.Length > 0 && 200 <= status < 300 ==>
              var len := if contentLength != 0 then contentLength else bodySize;
              var n := NormalizedAll(old(ranges[..]), len);
              error == !(|n| <= RANGE_MAX_COUNT && Acceptable(n, |n|, len))
              && (!error ==> ranges[..] == n)
              && exists k :: 0 <= k <= |n| && ranges[..] == n[..k] + old(ranges[..])[k..]
  {
    hide Acceptable, OverlapCount, Reach, Normalized, NormalizedAll;
    ghost var was := ranges[..];
    if ranges.Length == 0 || !(200 <= status < 300) { return false; }
    var len := if contentLength != 0 then contentLength else bodySize;
    ghost var n := NormalizedAll(was, len);
    if ranges.Length > RANGE_MAX_COUNT {
      assert was == n[..0] + was[0..];
      return true;
    }
    assert Acceptable(n, 0, len) && OverlapCount(n, 0) == 0 && Reach(n, 0) == -1 by { Start(n, len); }
    var prevFirst, prevLast, overlaps := -1, -1, 0;
    for k := 0 to ranges.Length
      invariant ranges[..] == n[..k] + was[k..]
      invariant Acceptable(n, k, len) && overlaps == OverlapCount(n, k) && prevLast == Reach(n, k)
      invariant prevFirst == if k == 0 then -1 else n[k - 1].0
    {
      assert ranges[..][k] == was[k];
      NormalizeOne(ranges, k, len);
      ReplacedAt(was, n, k);
      assert n[k] == Normalized(was[k], len) by { NormalizedAt(was, len, k); }
      var r := ranges[..][k];
      if !(0 <= r.0 <= r.1 <= len - 1) || r.0 <= prevFirst {
        NotAcceptable(n, k, len);
        return true;
      }
      AcceptStep(n, k, len);
      if r.0 <= prevLast {
        overlaps := overlaps + 1;
        if overlaps > 2 { return true; }
      }
      prevFirst := if r.0 > prevFirst then r.0 else prevFirst;
      prevLast := if r.1 > prevLast then r.1 else prevLast;
    }
    assert n[..|n|] + was[|n|..] == n;
    error := false;
  }

  /** The three rewriting steps on one range. */
  method NormalizeOne(ranges: array<Range>, k: nat, len: nat)
    requires k < ranges.Length
    modifies ranges
    ensures ranges[..] == old(ranges[..])[k := Normalized(old(ranges[k]), len)]
  {
    if ranges[k].0 == -1 && ranges[k].1 == -1 { ranges[k] := (0, len); }
    if ranges[k].0 == -1 { ranges[k] := (len - ranges[k].1, len - 1); }
    if ranges[k].1 == -1 || ranges[k].1 >= len { ranges[k] := (ranges[k].0, len - 1); }
  }

  lemma NormalizedAt(was: seq<Range>, len: nat, k: nat)
    requires k < |was|
    ensures NormalizedAll(was, len)[k] == Normalized(was[k], len)
  {
  }

  lemma ReplacedAt(was: seq<Range>, n: seq<Range>, k: nat)
    requires k < |n| == |was|
    ensures (n[..k] + was[k..])[k := n[k]] == n[..k + 1] + was[k + 1..]
  {
  }

  lemma {:induction false} ReachIsMax(n: seq<Range>, k: nat)
    requires k <= |n|
    ensures forall j :: 0 <= j < k ==> n[j].1 <= Reach(n, k)
    ensures Reach(n, k) == -1 || exists j :: 0 <= j < k && n[j].1 == Reach(n, k)
  {
    if k > 0 {
      ReachIsMax(n, k - 1);
      assert Reach(n, k) == n[k - 1].1 || Reach(n, k) == Reach(n, k - 1);
    }
  }

  /** Reaching back into some earlier range is reaching back into the furthest one. */
  lemma {:induction false} OverlapsReach(n: seq<Range>, k: nat)
    requires k < |n| && n[k].0 >= 0
    ensures Overlaps(n, k) <==> n[k].0 <= Reach(n, k)
  {
    ReachIsMax(n, k);
  }

  lemma NotAcceptable(n: seq<Range>, k: nat, len: nat)
    requires k < |n|
    requires !Inside(n[k], len) || (k > 0 && n[k].0 <= n[k - 1].0)
    ensures !Acceptable(n, |n|, len)
  {
  }

  lemma Start(n: seq<Range>, len: nat)
    ensures Acceptable(n, 0, len) && OverlapCount(n, 0) == 0 && Reach(n, 0) == -1
  {
  }

  /** One more range inside the content and behind the previous start. */
  lemma {:induction false} AcceptStep(n: seq<Range>, k: nat, len: nat)
    requires k < |n| && Acceptable(n, k, len) && Inside(n[k], len) && (k == 0 || n[k - 1].0 < n[k].0)
    ensures Reach(n, k + 1) == if n[k].1 > Reach(n, k) then n[k].1 else Reach(n, k)
    ensures OverlapCount(n, k + 1) == OverlapCount(n, k) + if n[k].0 <= Reach(n, k) then 1 else 0
    ensures OverlapCount(n, k + 1) <= 2 ==> Acceptable(n, k + 1, len)
    ensures OverlapCount(n, k + 1) > 2 ==> !Acceptable(n, |n|, len)
  {
    hide Reach, Overlaps;
    OverlapsReach(n, k);
    ReachStep(n, k);
    CountGrows(n, k + 1, |n|);
  }

  lemma ReachStep(n: seq<Range>, k: nat)
    requires k < |n|
    ensures Reach(n, k + 1) == if n[k].1 > Reach(n, k) then n[k].1 else Reach(n, k)
  {
  }

  lemma {:induction false} CountGrows(n: seq<Range>, k: nat, m: nat)
    requires k <= m <= |n|
    ensures OverlapCount(n, k) <= OverlapCount(n, m)
  {
    if k < m { CountGrows(n, k, m - 1); }
  }

  // ----------------------------------------------------------------- its meaning

  /** On every range the Range header can carry, rewriting keeps exactly the bytes asked
      for; the result is usable when there are any, except that a suffix longer than the
      content is refused instead of standing for the whole content. */
  lemma NormalizedMeaning(r: Range, len: nat)
    requires RangeHeader.Valid(r)
    ensures Inside(Normalized(r, len), len) <==>
            (exists b: nat :: Asks(r, len, b)) && !(r.0 == -1 && r.1 > len)
    ensures Inside(Normalized(r, len), len) ==>
            forall b: nat :: Asks(r, len, b) <==> Normalized(r, len).0 <= b <= Normalized(r, len).1
  {
    var n := Normalized(r, len);
    if Inside(n, len) { assert Asks(r, len, n.0); }
  }

  predicate HasByte(r: Range, b: int) { r.0 <= b <= r.1 }

  /** The `i`-th range and some earlier one have a byte in common. */
  ghost predicate Shares(n: seq<Range>, i: nat)
    requires i < |n|
  {
    exists j, b :: 0 <= j < i && HasByte(n[j], b) && HasByte(n[i], b)
  }

  ghost function Sharing(n: seq<Range>, k: nat): set<nat>
    requires k <= |n|
  {
    set i: nat | i < k && Shares(n, i)
  }

  lemma OverlapShares(n: seq<Range>, i: nat, len: nat)
    requires i < |n| && AllInside(n, |n|, len) && Ascending(n, |n|)
    ensures Overlaps(n, i) <==> Shares(n, i)
  {
    if j :| 0 <= j < i && n[i].0 <= n[j].1 { assert HasByte(n[j], n[i].0) && HasByte(n[i], n[i].0); }
  }

  lemma {:induction false} SharingCounted(n: seq<Range>, k: nat, len: nat)
    requires k <= |n| && AllInside(n, |n|, len) && Ascending(n, |n|)
    ensures OverlapCount(n, k) == |Sharing(n, k)|
  {
    hide Overlaps, Shares, AllInside, Ascending;
    if k > 0 {
      var i := k - 1;
      SharingCounted(n, i, len);
      OverlapShares(n, i, len);
      assert i !in Sharing(n, i);
      assert Sharing(n, k) == if Shares(n, i) then Sharing(n, i) + {i} else Sharing(n, i);
    } else {
      assert Sharing(n, 0) == {};
    }
  }

  /** Rewritten ranges are accepted exactly if there are at most 1024, each has a first byte,
      a last one behind it and both in the content, they start in ascending order, and at most
      two of them have a byte in common with an earlier one. */
  lemma {:induction false} AcceptedIff(n: seq<Range>, len: nat)
    ensures |n| <= RANGE_MAX_COUNT && Acceptable(n, |n|, len)
            <==> |n| <= 1024 && (forall i :: 0 <= i < |n| ==> 0 <= n[i].0 <= n[i].1 < len)
                 && (forall i, j :: 0 <= i < j < |n| ==> n[i].0 < n[j].0) && |Sharing(n, |n|)| <= 2
  {
    hide OverlapCount, Sharing;
    if AllInside(n, |n|, len) && Ascending(n, |n|) { SharingCounted(n, |n|, len); }
  }

  /** All arithmetic stays within the signed size type. */
  lemma NormalizedFits(r: Range, len: nat)
    requires r.0 >= -1 && r.1 >= -1 && RangeHeader.FitsSsize(r) && len <= SSIZE_MAX
    ensures RangeHeader.FitsSsize(Normalized(r, len))
  {
  }

  /** Bytes selected up to the furthest position count once, and each range that reaches
      back adds less than the content length. */
  lemma {:induction false} SelectedBound(n: seq<Range>, k: nat, len: nat)
    requires k <= |n| && AllInside(n, k, len)
    ensures -1 <= Reach(n, k) < len || k == 0
    ensures Selected(n, k) <= Reach(n, k) + 1 + OverlapCount(n, k) * len
  {
    if k > 0 {
      SelectedBound(n, k - 1, len);
      OverlapsReach(n, k - 1);
      var c := OverlapCount(n, k - 1);
      assert (c + 1) * len == c * len + len;
    }
  }

  /** However many ranges a request lists, at most three times the content is sent. */
  lemma {:induction false} AtMostThreeTimes(n: seq<Range>, len: nat)
    requires n != [] && Acceptable(n, |n|, len)
    ensures 0 < Selected(n, |n|) <= 3 * len
  {
    hide AllInside, Ascending, Selected, Reach, OverlapCount;
    SelectedBound(n, |n|, len);
    AtMostTwice(OverlapCount(n, |n|), len);
    SelectedPositive(n, |n|, len);
  }

  lemma AtMostTwice(c: nat, len: nat)
    requires c <= 2
    ensures c * len <= 2 * len
  {
  }

  lemma {:induction false} SelectedPositive(n: seq<Range>, k: nat, len: nat)
    requires k <= |n| && AllInside(n, k, len)
    ensures Selected(n, k) >= k
  {
    if k > 0 { SelectedPositive(n, k - 1, len); }
  }
}
