/** Where a serialized body is cut decides which of its items the parser reports. */
module MultipartCuts {
  import opened Bytes
  import opened PartHeaders
  import opened MultipartParser
  import opened MultipartSerializer
  import opened MultipartBodies
  import opened MultipartRoundTrip

  /** One item as it is written, up to the delimiter of the next. */
  function ItemText(item: MultipartFormData, boundary: string): string {
    ItemBegin(item, boundary) + (item.content + CRLF)
  }

  /** The first item from the `n`-th on, which starts at `pos`, whose opening delimiter
      arrives in one fragment. */
  function FirstHeld(items: seq<MultipartFormData>, n: nat, boundary: string, fragments: seq<string>,
                     pos: nat): (k: nat)
    requires n <= |items|
    ensures n <= k <= |items|
    decreases |items| - n
  {
    if n == |items| || Holds(fragments, pos, |Opening(boundary)|) then n
    else FirstHeld(items, n + 1, boundary, fragments, pos + |ItemText(items[n], boundary)|)
  }

  // ------------------------------------------- where the opening delimiter occurs

  /** No header line ends in the delimiter line, and the content does not hold it either. */
  ghost predicate OpensOnce(item: MultipartFormData, boundary: string) {
    var o := Opening(boundary);
    Clean(DispositionLine(item) + CRLF, o) && Clean(ContentTypeLine(item) + CRLF, o) && Clean(item.content + CRLF, o)
  }

  ghost predicate AllOpenOnce(items: seq<MultipartFormData>, boundary: string) {
    forall n :: 0 <= n < |items| ==> OpensOnce(items[n], boundary)
  }

  /** A line: its only carriage return stands before its end. */
  predicate IsLine(o: string) {
    |o| >= 4 && o[0] == '-' && o[|o| - 2] == '\r' && forall i :: 0 <= i < |o| - 2 ==> o[i] != '\r'
  }

  predicate Ended(a: string) { |a| >= 2 && a[|a| - 2] == '\r' && a[|a| - 1] == '\n' }

  lemma OpeningIsLine(boundary: string)
    requires '\r' !in boundary
    ensures IsLine(Opening(boundary)) && Ended(Opening(boundary))
  {
    var o := Opening(boundary);
    assert o[|o| - 2] == '\r' && o[|o| - 1] == '\n';
    assert forall i :: 2 <= i < |o| - 2 ==> o[i] == boundary[i - 2];
  }

  /** An occurrence cannot start before the end of a line and reach beyond it. */
  lemma Seam(a: string, b: string, o: string, j: nat)
    requires IsLine(o) && Ended(a) && j < |a|
    ensures OccursAt(a + b, o, j) <==> OccursAt(a, o, j)
  {
    var s := a + b;
    if j + |o| <= |a| {
      assert a[j..j + |o|] == s[j..j + |o|];
    } else if j + |o| <= |s| {
      var i := if j == |a| - 1 then 0 else |a| - 2 - j;
      assert s[j..j + |o|][i] == s[j + i] == a[j + i];
      assert a[j + i] != o[i];
    }
  }

  lemma Beyond(a: string, b: string, o: string, j: nat)
    requires |a| <= j
    ensures OccursAt(a + b, o, j) <==> OccursAt(b, o, j - |a|)
  {
    if j + |o| <= |a| + |b| { assert (a + b)[j..j + |o|] == b[j - |a|..j - |a| + |o|]; }
  }

  lemma {:induction false} CleanConcat(a: string, b: string, o: string)
    requires IsLine(o) && Ended(a) && Clean(a, o) && Clean(b, o)
    ensures Clean(a + b, o)
  {
    hide OccursAt;
    forall j: nat ensures !OccursAt(a + b, o, j) {
      if j < |a| { Seam(a, b, o, j); } else { Beyond(a, b, o, j); }
    }
  }

  lemma {:induction false} EndedConcat(a: string, b: string)
    requires Ended(b)
    ensures Ended(a + b)
  {
  }

  lemma ShortIsClean(s: string, o: string)
    requires |s| < |o|
    ensures Clean(s, o)
  {
  }

  /** Header lines and content of an item, up to the delimiter of the next. */
  function Inside(item: MultipartFormData): string { HeaderBlock(item) + (item.content + CRLF) }

  lemma ItemTextIs(item: MultipartFormData, boundary: string)
    ensures ItemText(item, boundary) == Opening(boundary) + Inside(item)
  {
  }

  lemma {:induction false} InsideIsClean(item: MultipartFormData, boundary: string)
    requires '\r' !in boundary && OpensOnce(item, boundary)
    ensures Clean(Inside(item), Opening(boundary)) && Ended(Inside(item))
  {
    hide Opening, DispositionLine, ContentTypeLine, Clean, IsLine;
    var o := Opening(boundary);
    OpeningIsLine(boundary);
    ShortIsClean(CRLF, o);
    var body := item.content + CRLF;
    CleanConcat(CRLF, body, o);
    var blank := TypePart(item) + CRLF;
    assert Clean(blank + body, o) by {
      Append3(TypePart(item), CRLF, body);
      if item.contentType == "" {
        assert "" + (CRLF + body) == CRLF + body;
      } else {
        CleanConcat(TypePart(item), CRLF + body, o);
      }
    }
    var line := DispositionLine(item) + CRLF;
    CleanConcat(line, blank + body, o);
    Append3(line, blank, body);
    EndedConcat(HeaderBlock(item), body);
  }

  /** The opening delimiter occurs in front of each item and nowhere else in it. */
  lemma {:induction false} OnlyAtStart(item: MultipartFormData, boundary: string, more: string, j: nat)
    requires '\r' !in boundary && OpensOnce(item, boundary) && 0 < j < |ItemText(item, boundary)|
    ensures !OccursAt(ItemText(item, boundary) + more, Opening(boundary), j)
  {
    hide Opening, OpensOnce, Inside, ItemText, IsLine;
    var o, inside := Opening(boundary), Inside(item);
    OpeningIsLine(boundary);
    ItemTextIs(item, boundary);
    InsideIsClean(item, boundary);
    Append3(o, inside, more);
    if j < |o| {
      Seam(o, inside + more, o, j);
    } else {
      Beyond(o, inside + more, o, j);
      Seam(inside, more, o, j - |o|);
    }
  }

  // ----------------------------------------------------- after the last opening

  /** Nothing was reported: the parser waits for an opening, or has taken the closing
      delimiter of a boundary of dashes for one. */
  predicate Unopened(q: Parser, boundary: string) {
    q == INITIAL || ((forall i :: 0 <= i < |boundary| ==> boundary[i] == '-') && q == INITIAL.(state := 1))
  }

  /** The closing line holds the opening only if the boundary consists of dashes, and then
      at its very end. */
  lemma {:induction false} OpeningInFinish(boundary: string, j: nat)
    requires '\r' !in boundary && OccursAt(Finish(boundary), Opening(boundary), j)
    ensures j == 2 && forall i :: 0 <= i < |boundary| ==> boundary[i] == '-'
  {
    var f, o := Finish(boundary), Opening(boundary);
    var m := |boundary|;
    assert f[j..j + |o|][m + 2] == f[j + m + 2] == '\r';
    assert j == 2;
    forall i | 0 <= i < m + 2 ensures f[i + 2] == o[i] { assert f[2..2 + |o|][i] == f[2 + i]; }
    Dashes(boundary, m);
  }

  lemma {:induction false} Dashes(boundary: string, n: nat)
    requires n <= |boundary|
    requires forall i :: 0 <= i < |boundary| + 2 ==> Finish(boundary)[i + 2] == Opening(boundary)[i]
    ensures forall i :: 0 <= i < n ==> boundary[i] == '-'
  {
    if n > 0 {
      Dashes(boundary, n - 1);
      assert boundary[n - 1] == Finish(boundary)[n - 1 + 2] == Opening(boundary)[n - 1];
      assert n > 2 ==> Opening(boundary)[n - 1] == boundary[n - 3];
    }
  }

  lemma FeedDropped(o: string, d: string, accept: Receiver, fragments: seq<string>)
    requires o != "" && d != "" && fragments != [] && Find(fragments[0], o) == |fragments[0]|
    ensures Feed(INITIAL, o, d, accept, fragments) == Feed(INITIAL, o, d, accept, fragments[1..])
  {
    assert "" + fragments[0] == fragments[0] && INITIAL.(live := "") == INITIAL;
  }

  /** Until an opening delimiter comes whole in one fragment, every fragment is dropped. */
  lemma {:induction false} OpeningLost(o: string, d: string, accept: Receiver, fragments: seq<string>)
    requires o != "" && d != "" && forall i :: 0 <= i < |fragments| ==> Find(fragments[i], o) == |fragments[i]|
    ensures Feed(INITIAL, o, d, accept, fragments) == (true, INITIAL)
    decreases |fragments|
  {
    if fragments != [] {
      FeedDropped(o, d, accept, fragments);
      OpeningLost(o, d, accept, fragments[1..]);
    }
  }

  /** The rest of a body in which no item begins any more. */
  lemma {:induction false} FeedUnopened(boundary: string, accept: Receiver, fragments: seq<string>)
    requires forall j: nat :: OccursAt(Joined(fragments), Opening(boundary), j) ==>
               j + |Opening(boundary)| == |Joined(fragments)| && forall i :: 0 <= i < |boundary| ==> boundary[i] == '-'
    ensures var (ok, q) := Feed(INITIAL, Opening(boundary), Delimiter(boundary), accept, fragments);
            ok && Unopened(q, boundary)
    decreases |fragments|
  {
    hide Opening, Delimiter;
    if fragments != [] {
      var o, d, f, rest := Opening(boundary), Delimiter(boundary), fragments[0], Joined(fragments[1..]);
      var j := Find(f, o);
      assert "" + f == f;
      if j < |f| {
        Seen(f, rest, o, j);
        assert OccursAt(Joined(fragments), o, j);
        assert rest == "" && f[j + |o|..] == "";
        var q := INITIAL.(state := 1);
        assert Round(INITIAL.(live := f), o, d, accept) == Continue(q);
        assert Run(q, o, d, accept) == (true, q) && Run(INITIAL.(live := f), o, d, accept) == (true, q);
        assert q.(live := q.live + "") == q;
        StaysIdle(q, o, d, accept, fragments[1..]);
      } else {
        forall i: nat | OccursAt(rest, o, i) ensures OccursAt(Joined(fragments), o, |f| + i) {
          Beyond(f, rest, o, |f| + i);
        }
        assert INITIAL.(live := "") == INITIAL;
        FeedUnopened(boundary, accept, fragments[1..]);
      }
    }
  }

  lemma Seen(f: string, rest: string, o: string, j: nat)
    ensures OccursAt(f, o, j) ==> OccursAt(f + rest, o, j)
  {
    if j + |o| <= |f| { assert (f + rest)[j..j + |o|] == f[j..j + |o|]; }
  }

  lemma {:induction false} StaysIdle(p: Parser, o: string, d: string, accept: Receiver, fragments: seq<string>)
    requires o != "" && d != "" && p.live == "" && Joined(fragments) == ""
    ensures Feed(p, o, d, accept, fragments) == (true, p)
    decreases |fragments|
  {
    if fragments != [] {
      assert fragments[0] == "" && "" + "" == "";
      StaysIdle(p, o, d, accept, fragments[1..]);
    }
  }

  // ------------------------------------------------------------ the whole body

  lemma {:induction false} FirstHeldShift(items: seq<MultipartFormData>, n: nat, boundary: string,
                                          fragments: seq<string>, pos: nat)
    requires n <= |items| && fragments != [] && |fragments[0]| <= pos
    ensures FirstHeld(items, n, boundary, fragments, pos)
            == FirstHeld(items, n, boundary, fragments[1..], pos - |fragments[0]|)
    decreases |items| - n
  {
    hide ItemText;
    if n < |items| {
      FirstHeldShift(items, n + 1, boundary, fragments, pos + |ItemText(items[n], boundary)|);
    }
  }

  lemma {:induction false} SerializedDrop(items: seq<MultipartFormData>, n: nat, i: nat, boundary: string)
    requires n + i <= |items|
    ensures SerializedFrom(items[n..], i, boundary, true) == SerializedFrom(items, n + i, boundary, true)
    decreases |items| - n - i
  {
    hide ItemBegin;
    if n + i < |items| { SerializedDrop(items, n, i + 1, boundary); }
  }

  /** Nothing before the `n`-th item in what is still to come looks like an opening. */
  ghost predicate Gap(gap: string, items: seq<MultipartFormData>, n: nat, boundary: string)
    requires n <= |items|
  {
    forall j: nat :: j < |gap| ==> !OccursAt(gap + SerializedFrom(items, n, boundary, true), Opening(boundary), j)
  }

  lemma {:induction false} NoneBehind(x: string, t: string, o: string, c: nat, from: nat)
    requires from <= c <= |x| && forall j: nat :: from <= j < |x| ==> !OccursAt(x + t, o, j)
    ensures forall j: nat :: j < |x| - c ==> !OccursAt(x[c..] + t, o, j)
  {
    hide OccursAt;
    Append3(x[..c], x[c..], t);
    assert x[..c] + x[c..] == x;
    forall j: nat | j < |x| - c ensures !OccursAt(x[c..] + t, o, j) {
      Beyond(x[..c], x[c..] + t, o, c + j);
    }
  }

  lemma {:induction false} GapCut(gap: string, items: seq<MultipartFormData>, n: nat, boundary: string, c: nat)
    requires n <= |items| && c <= |gap| && Gap(gap, items, n, boundary)
    ensures Gap(gap[c..], items, n, boundary)
  {
    hide OccursAt, Opening, SerializedFrom;
    NoneBehind(gap, SerializedFrom(items, n, boundary, true), Opening(boundary), c, 0);
  }

  /** Behind the first byte of an item no opening occurs before the next item. */
  lemma {:induction false} GapBehind(items: seq<MultipartFormData>, n: nat, boundary: string, c: nat)
    requires n < |items| && '\r' !in boundary && OpensOnce(items[n], boundary)
    requires 0 < c <= |ItemText(items[n], boundary)|
    ensures Gap(ItemText(items[n], boundary)[c..], items, n + 1, boundary)
  {
    hide ItemText, Opening, OpensOnce, OccursAt, SerializedFrom;
    var o, x, t := Opening(boundary), ItemText(items[n], boundary), SerializedFrom(items, n + 1, boundary, true);
    forall j: nat | 0 < j < |x| ensures !OccursAt(x + t, o, j) { OnlyAtStart(items[n], boundary, t, j); }
    NoneBehind(x, t, o, c, 1);
  }

  /** The opening of the `n`-th item lies whole in `f`: the parser drops what is before it
      and starts with this item. */
  lemma {:induction false} StartsAt(items: seq<MultipartFormData>, n: nat, boundary: string, accept: Receiver,
                                    gap: string, f: string, more: seq<string>)
    requires n < |items| && Serializable(items, boundary) && Takes(accept, |items|)
    requires Gap(gap, items, n, boundary) && |gap| + |Opening(boundary)| <= |f|
    requires f + Joined(more) == gap + SerializedFrom(items, n, boundary, true)
    ensures FirstHeld(items, n, boundary, [f] + more, |gap|) == n
    ensures var (ok, q) := Feed(INITIAL, Opening(boundary), Delimiter(boundary), accept, [f] + more);
            ok && q.valid && Assembled(q.events) == items[n..]
  {
    hide Opening, Delimiter, Takes, WellFormed, Assembled, Serialized, SerializedFrom;
    var o, d, rest, mine := Opening(boundary), Delimiter(boundary), Joined(more), items[n..];
    var live := FoundAt(items, n, boundary, gap, f, rest);
    assert Serializable(mine, boundary);
    assert Takes(accept, |mine|) by { FewerTaken(accept, |items|, |mine|); }
    assert ([live] + more)[0] == live && ([live] + more)[1..] == more && ([f] + more)[1..] == more;
    RoundTrip(mine, boundary, accept, [live] + more);
    SameStart(f, live, o, d, accept, more);
  }

  /** Two first fragments that leave the same behind the opening are read alike. */
  lemma {:induction false} SameStart(f: string, live: string, o: string, d: string, accept: Receiver, more: seq<string>)
    requires o != "" && d != "" && f != "" && live != ""
    requires InitialTurn(INITIAL.(live := f), o) == InitialTurn(INITIAL.(live := live), o)
    ensures Feed(INITIAL, o, d, accept, [f] + more) == Feed(INITIAL, o, d, accept, [live] + more)
  {
    hide InitialTurn;
    assert "" + f == f && "" + live == live && ([f] + more)[1..] == ([live] + more)[1..];
    assert Run(INITIAL.(live := f), o, d, accept) == Run(INITIAL.(live := live), o, d, accept);
  }

  lemma FewerTaken(accept: Receiver, count: nat, fewer: nat)
    requires Takes(accept, count) && fewer <= count
    ensures Takes(accept, fewer)
  {
  }

  /** A text `gap + t` arrives with `f` first; the pattern `o` starts `t` and nothing before. */
  lemma {:induction false} FindsGap(f: string, rest: string, gap: string, t: string, o: string)
    requires f + rest == gap + t && o != "" && |gap| + |o| <= |f| && OccursAt(t, o, 0)
    requires forall j: nat :: j < |gap| ==> !OccursAt(gap + t, o, j)
    ensures Find(f, o) == |gap| && f[|gap|..] + rest == t && Find(f[|gap|..], o) == 0
  {
    var live := f[|gap|..];
    assert f == gap + live by { HeadOf(f, rest, gap, t); }
    TailOf(gap, live, rest, t);
    Seen2(live, rest, o);
    Beyond(gap, live, o, |gap|);
    forall j: nat | j < |gap| ensures !OccursAt(f, o, j) { Seen(f, rest, o, j); }
    FindIs(f, o, |gap|);
    FindIs(live, o, 0);
  }

  lemma HeadOf(f: string, rest: string, gap: string, t: string)
    requires f + rest == gap + t && |gap| <= |f|
    ensures f == gap + f[|gap|..]
  {
    assert f[..|gap|] == (f + rest)[..|gap|] == gap;
  }

  lemma TailOf(gap: string, live: string, rest: string, t: string)
    requires (gap + live) + rest == gap + t
    ensures live + rest == t
  {
    Append3(gap, live, rest);
    assert (gap + (live + rest))[|gap|..] == live + rest && (gap + t)[|gap|..] == t;
  }

  lemma Seen2(live: string, rest: string, o: string)
    requires OccursAt(live + rest, o, 0) && |o| <= |live|
    ensures OccursAt(live, o, 0)
  {
    assert (live + rest)[0..|o|] == live[0..|o|];
  }

  lemma {:induction false} FoundAt(items: seq<MultipartFormData>, n: nat, boundary: string, gap: string, f: string,
                                   rest: string)
    returns (live: string)
    requires n < |items| && Gap(gap, items, n, boundary) && |gap| + |Opening(boundary)| <= |f|
    requires f + rest == gap + SerializedFrom(items, n, boundary, true)
    ensures live + rest == Serialized(items[n..], boundary, true) && |live| >= |Opening(boundary)|
    ensures f != ""
    ensures InitialTurn(INITIAL.(live := f), Opening(boundary))
            == InitialTurn(INITIAL.(live := live), Opening(boundary))
  {
    hide HeaderBlock, ItemText, Opening, SerializedFrom, OccursAt, Inside;
    var o, t := Opening(boundary), SerializedFrom(items, n, boundary, true);
    SerializedDrop(items, n, 0, boundary);
    BeginsWithOpening(items, n, boundary);
    FindsGap(f, rest, gap, t, o);
    live := f[|gap|..];
    DropDrop(f, |gap|, |o|);
  }

  lemma {:induction false} BeginsWithOpening(items: seq<MultipartFormData>, n: nat, boundary: string)
    requires n < |items|
    ensures OccursAt(SerializedFrom(items, n, boundary, true), Opening(boundary), 0)
  {
    hide ItemText, Opening, Inside;
    TextOf(items, n, boundary);
    ItemTextIs(items[n], boundary);
    var o, inside, more := Opening(boundary), Inside(items[n]), SerializedFrom(items, n + 1, boundary, true);
    Append3(o, inside, more);
    assert (o + (inside + more))[0..|o|] == o;
  }

  /** A fragment that ends before the opening of the `n`-th item. */
  lemma {:induction false} DroppedGap(items: seq<MultipartFormData>, n: nat, boundary: string, gap: string, f: string,
                                      more: seq<string>)
    requires n <= |items| && Gap(gap, items, n, boundary) && |f| <= |gap|
    requires f + Joined(more) == gap + SerializedFrom(items, n, boundary, true)
    ensures var gap' := gap[|f|..];
            Gap(gap', items, n, boundary) && Joined(more) == gap' + SerializedFrom(items, n, boundary, true)
            && FirstHeld(items, n, boundary, [f] + more, |gap|) == FirstHeld(items, n, boundary, more, |gap'|)
  {
    hide SerializedFrom, Gap, FirstHeld, Joined;
    assert ([f] + more)[1..] == more;
    GapCut(gap, items, n, boundary, |f|);
    FirstHeldShift(items, n, boundary, [f] + more, |gap|);
    CutOff(f, Joined(more), gap, SerializedFrom(items, n, boundary, true));
  }

  /** A fragment that ends inside the opening of the `n`-th item, which is lost. */
  lemma {:induction false} DroppedOpening(items: seq<MultipartFormData>, n: nat, boundary: string, gap: string,
                                          f: string, more: seq<string>)
    requires n < |items| && '\r' !in boundary && OpensOnce(items[n], boundary)
    requires |gap| < |f| < |gap| + |Opening(boundary)|
    requires f + Joined(more) == gap + SerializedFrom(items, n, boundary, true)
    ensures |f| - |gap| <= |ItemText(items[n], boundary)|
    ensures var gap' := ItemText(items[n], boundary)[|f| - |gap|..];
            Gap(gap', items, n + 1, boundary)
            && Joined(more) == gap' + SerializedFrom(items, n + 1, boundary, true)
            && FirstHeld(items, n, boundary, [f] + more, |gap|) == FirstHeld(items, n + 1, boundary, more, |gap'|)
  {
    hide Opening, ItemText, OpensOnce, Gap, SerializedFrom, Joined, Inside;
    var x, t, c := ItemText(items[n], boundary), SerializedFrom(items, n + 1, boundary, true), |f| - |gap|;
    ItemTextIs(items[n], boundary);
    assert |x| >= |Opening(boundary)|;
    assert ([f] + more)[1..] == more;
    GapBehind(items, n, boundary, c);
    FirstHeldShift(items, n + 1, boundary, [f] + more, |gap| + |x|);
    TextOf(items, n, boundary);
    Append3(gap, x, t);
    CutOff(f, Joined(more), gap + x, t);
    BehindGap(gap, x, |f|);
  }

  lemma BehindGap(gap: string, x: string, k: nat)
    requires |gap| <= k <= |gap| + |x|
    ensures (gap + x)[k..] == x[k - |gap|..]
  {
  }

  lemma CutOff(f: string, rest: string, a: string, b: string)
    requires f + rest == a + b && |f| <= |a|
    ensures rest == a[|f|..] + b
  {
    assert rest == (f + rest)[|f|..] == (a + b)[|f|..];
  }

  lemma TextOf(items: seq<MultipartFormData>, n: nat, boundary: string)
    requires n < |items|
    ensures SerializedFrom(items, n, boundary, true)
            == ItemText(items[n], boundary) + SerializedFrom(items, n + 1, boundary, true)
  {
  }

  lemma {:induction false} NotFoundIn(items: seq<MultipartFormData>, n: nat, boundary: string, gap: string, f: string,
                                      rest: string)
    requires n <= |items| && Gap(gap, items, n, boundary) && |f| < |gap| + |Opening(boundary)|
    requires f + rest == gap + SerializedFrom(items, n, boundary, true)
    ensures Find(f, Opening(boundary)) == |f|
  {
    hide SerializedFrom, Opening;
    var o := Opening(boundary);
    forall j: nat ensures !OccursAt(f, o, j) {
      if j + |o| <= |f| {
        assert f[j..j + |o|] == (f + rest)[j..j + |o|];
        assert !OccursAt(gap + SerializedFrom(items, n, boundary, true), o, j);
      }
    }
    FindNone(f, o);
  }

  /** A serialized body from any point on, in any fragments: the parser reports exactly the
      items from the first one whose opening delimiter arrives whole. */
  lemma {:induction false} FeedCut(items: seq<MultipartFormData>, n: nat, boundary: string, accept: Receiver,
                                   fragments: seq<string>, gap: string)
    requires n <= |items| && Serializable(items, boundary) && AllOpenOnce(items, boundary) && Takes(accept, |items|)
    requires Gap(gap, items, n, boundary) && Joined(fragments) == gap + SerializedFrom(items, n, boundary, true)
    ensures var k := FirstHeld(items, n, boundary, fragments, |gap|);
            var (ok, q) := Feed(INITIAL, Opening(boundary), Delimiter(boundary), accept, fragments);
            ok && if k < |items| then q.valid && Assembled(q.events) == items[k..] else Unopened(q, boundary)
    decreases |fragments|
  {
    hide Opening, Delimiter, ItemText, Takes, WellFormed, AllOpenOnce, OpensOnce, Gap, Assembled, Unopened;
    hide SerializedFrom, FirstHeld, Feed;
    var o, d := Opening(boundary), Delimiter(boundary);
    NotEmpty(items, n, boundary);
    var f, more := fragments[0], fragments[1..];
    assert fragments == [f] + more;
    if n == |items| {
      GapFinish(gap, items, boundary, fragments);
      FeedUnopened(boundary, accept, fragments);
    } else if |gap| + |o| <= |f| {
      StartsAt(items, n, boundary, accept, gap, f, more);
    } else {
      NotFoundIn(items, n, boundary, gap, f, Joined(more));
      FeedDropped(o, d, accept, fragments);
      if |f| <= |gap| {
        DroppedGap(items, n, boundary, gap, f, more);
        FeedCut(items, n, boundary, accept, more, gap[|f|..]);
      } else {
        assert OpensOnce(items[n], boundary) by { OneOpensOnce(items, n, boundary); }
        DroppedOpening(items, n, boundary, gap, f, more);
        FeedCut(items, n + 1, boundary, accept, more, ItemText(items[n], boundary)[|f| - |gap|..]);
      }
    }
  }

  lemma OneOpensOnce(items: seq<MultipartFormData>, n: nat, boundary: string)
    requires n < |items| && AllOpenOnce(items, boundary)
    ensures OpensOnce(items[n], boundary)
  {
  }

  lemma NotEmpty(items: seq<MultipartFormData>, n: nat, boundary: string)
    requires n <= |items|
    ensures SerializedFrom(items, n, boundary, true) != ""
  {
  }

  lemma {:induction false} GapFinish(gap: string, items: seq<MultipartFormData>, boundary: string,
                                     fragments: seq<string>)
    requires Gap(gap, items, |items|, boundary) && '\r' !in boundary
    requires Joined(fragments) == gap + SerializedFrom(items, |items|, boundary, true)
    ensures forall j: nat :: OccursAt(Joined(fragments), Opening(boundary), j) ==>
              j + |Opening(boundary)| == |Joined(fragments)| && forall i :: 0 <= i < |boundary| ==> boundary[i] == '-'
  {
    hide Opening, OccursAt;
    var o := Opening(boundary);
    forall j: nat | OccursAt(Joined(fragments), o, j)
      ensures j + |o| == |Joined(fragments)| && forall i :: 0 <= i < |boundary| ==> boundary[i] == '-'
    {
      assert j >= |gap|;
      Beyond(gap, Finish(boundary), o, j);
      OpeningInFinish(boundary, j - |gap|);
    }
  }

  /** However a body is cut, the parser accepts it and reports, in order and valid, the items
      from the first one on whose opening delimiter lies whole in one fragment; if there is
      none it reports nothing. */
  lemma {:induction false} CutBody(items: seq<MultipartFormData>, boundary: string, accept: Receiver,
                                   fragments: seq<string>)
    requires Serializable(items, boundary) && AllOpenOnce(items, boundary) && Takes(accept, |items|)
    requires Joined(fragments) == Serialized(items, boundary, true)
    ensures var k := FirstHeld(items, 0, boundary, fragments, 0);
            var (ok, q) := Feed(INITIAL, Opening(boundary), Delimiter(boundary), accept, fragments);
            ok && if k < |items| then q.valid && Assembled(q.events) == items[k..] else Unopened(q, boundary)
  {
    hide Opening, Delimiter, Serializable, AllOpenOnce, Takes, Assembled, SerializedFrom, FirstHeld, Unopened;
    var s := SerializedFrom(items, 0, boundary, true);
    assert "" + s == s;
    FeedCut(items, 0, boundary, accept, fragments, "");
  }
}
