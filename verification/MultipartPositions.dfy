/** Where in a serialized body the delimiters lie: behind a delimiter the next one comes no
    earlier than the empty line before the next content, and an opening that is not the first
    ends with a header line or comes later than that. */
module MultipartPositions {
  import opened Bytes
  import opened PartHeaders
  import opened MultipartParser
  import opened MultipartSerializer
  import opened MultipartBodies
  import opened MultipartRoundTrip
  import opened MultipartCuts

  ghost predicate EndsIn(s: string, t: string) { |t| <= |s| && s[|s| - |t|..] == t }

  lemma EndsInPart(s: string, a: string, t: string)
    requires EndsIn(s, a + t)
    ensures EndsIn(s, t)
  {
    assert s[|s| - |t|..] == s[|s| - |a + t|..][|a|..];
  }

  lemma EndsInTwo(s: string, t: string, u: string, k: nat)
    requires EndsIn(s, t) && EndsIn(s, u) && |u| == |t| - k && k <= |t|
    ensures t[k..] == u
  {
    assert s[|s| - |u|..] == s[|s| - |t|..][k..];
  }

  // -------------------------------------------------- where contents and delimiters lie

  /** Length of the body from the content of the `n`-th item on. */
  function Left(items: seq<MultipartFormData>, n: nat, boundary: string): nat
    requires n < |items|
  {
    |AfterHeaders(items, n, boundary)|
  }

  /** The body from the delimiter behind the content of the item before the `n`-th on. */
  function FromDelimiter(items: seq<MultipartFormData>, n: nat, boundary: string): string
    requires n <= |items|
  {
    Delimiter(boundary) + TailFrom(items, n, boundary)
  }

  lemma EndsInAfter(a: string, t: string, s: string)
    requires s == a + t
    ensures EndsIn(s, t)
  {
  }

  lemma {:induction false} TailEndsIn(items: seq<MultipartFormData>, n: nat, boundary: string)
    requires n <= |items|
    ensures EndsIn(Serialized(items, boundary, true), TailFrom(items, n, boundary))
    ensures n < |items| ==>
              EndsIn(Serialized(items, boundary, true), AfterHeaders(items, n, boundary))
              && EndsIn(Serialized(items, boundary, true), FromDelimiter(items, n + 1, boundary))
              && Left(items, n, boundary) == |items[n].content| + |FromDelimiter(items, n + 1, boundary)|
  {
    hide EndsIn, SerializedFrom, HeaderBlock, Delimiter;
    var s := Serialized(items, boundary, true);
    if n == 0 {
      SerializedIsDelimited(items, 0, boundary);
      EndsInAfter(DASH + boundary, TailFrom(items, 0, boundary), s);
    } else {
      TailEndsIn(items, n - 1, boundary);
      EndsInPart(s, Delimiter(boundary), TailFrom(items, n, boundary));
    }
    if n < |items| {
      var after, d, tail := AfterHeaders(items, n, boundary), Delimiter(boundary), TailFrom(items, n + 1, boundary);
      Append3(CRLF, HeaderBlock(items[n]), after);
      EndsInPart(s, CRLF + HeaderBlock(items[n]), after);
      Append3(items[n].content, d, tail);
      EndsInPart(s, items[n].content, d + tail);
    }
  }

  /** A line that starts at |pre|, followed by something other than a dash, holds no start of
      a delimiter. */
  lemma LineWithout(pre: string, line: string, rest: string, d: string)
    requires '\r' !in line && rest != "" && rest[0] != '-' && |d| > 2 && d[0] == '\r' && d[2] == '-'
    ensures forall k: nat :: |pre| <= k < |pre| + |line| + 2 ==> !OccursAt(pre + (line + CRLF + rest), d, k)
  {
    var t := pre + (line + CRLF + rest);
    var m := |pre| + |line|;
    assert forall i :: |pre| <= i < m ==> t[i] == line[i - |pre|];
    assert t[m] == '\r' && t[m + 1] == '\n' && t[m + 2] == rest[0];
    forall k: nat | |pre| <= k < m + 2 ensures !OccursAt(t, d, k) {
      if k + |d| <= |t| { assert t[k..k + |d|][0] == t[k] && t[k..k + |d|][2] == t[k + 2]; }
    }
  }

  /** Nor does the inside of a delimiter. */
  lemma DelimiterWithout(d: string, rest: string)
    requires d != "" && '\r' !in d[1..] && d[0] == '\r'
    ensures forall k: nat :: 0 < k < |d| ==> !OccursAt(d + rest, d, k)
  {
    var t := d + rest;
    forall k: nat | 0 < k < |d| ensures !OccursAt(t, d, k) {
      assert t[k] == d[k] == d[1..][k - 1] != '\r';
      if k + |d| <= |t| { assert t[k..k + |d|][0] == t[k]; }
    }
  }

  lemma DelimiterDash(boundary: string)
    ensures Delimiter(boundary)[2] == '-'
  {
  }

  lemma ClosingWithout(d: string)
    requires |d| >= 4 && d[0] == '\r'
    ensures forall k: nat :: k >= |d| ==> !OccursAt(d + (DASH + CRLF), d, k)
  {
    var t := d + (DASH + CRLF);
    assert t[|d|] == '-';
    forall k: nat | k >= |d| ensures !OccursAt(t, d, k) {
      if k + |d| <= |t| { assert k == |d| && t[k..k + |d|][0] == t[k]; }
    }
  }

  lemma LineStarts(item: MultipartFormData)
    ensures DispositionLine(item)[0] == 'C' && ContentTypeLine(item)[0] == 'C'
  {
  }

  /** The same text seen as a line behind what comes before. */
  lemma {:induction false} Lines(d: string, item: MultipartFormData, after: string)
    ensures var line, kind, blank := DispositionLine(item), ContentTypeLine(item), CRLF + after;
            var rest := TypePart(item) + blank;
            var t := d + (CRLF + (HeaderBlock(item) + after));
            t == d + ("" + CRLF + (line + CRLF + rest))
            && t == d + CRLF + (line + CRLF + rest)
            && (item.contentType != "" ==> t == d + CRLF + (line + CRLF) + (kind + CRLF + blank))
  {
    hide DispositionLine, ContentTypeLine;
    var line, kind, blank := DispositionLine(item), ContentTypeLine(item), CRLF + after;
    var rest := TypePart(item) + blank;
    Append3(line + CRLF, TypePart(item) + CRLF, after);
    Append3(TypePart(item), CRLF, after);
    assert HeaderBlock(item) + after == line + CRLF + rest;
    assert "" + CRLF == CRLF;
    Append3(d, CRLF, line + CRLF + rest);
    Append3(d + CRLF, line + CRLF, rest);
  }

  /** The lines between a delimiter and the empty line that ends the headers. */
  lemma {:induction false} HeadersWithout(d: string, item: MultipartFormData, after: string)
    requires |d| > 2 && d[0] == '\r' && d[2] == '-' && WritableHeaders(item)
    ensures var t := d + (CRLF + (HeaderBlock(item) + after));
            forall k: nat :: |d| <= k < |t| - |after| - 2 ==> !OccursAt(t, d, k)
  {
    hide OccursAt, DispositionLine, ContentTypeLine, WritableHeaders;
    DispositionLineClean(item);
    LineStarts(item);
    var line, kind, blank := DispositionLine(item), ContentTypeLine(item), CRLF + after;
    var t := d + (CRLF + (HeaderBlock(item) + after));
    var rest := TypePart(item) + blank;
    Lines(d, item, after);
    LineWithout(d, "", line + CRLF + rest, d);
    LineWithout(d + CRLF, line, rest, d);
    if item.contentType != "" { LineWithout(d + CRLF + (line + CRLF), kind, blank, d); }
  }

  /** Behind a delimiter the next one comes no earlier than the empty line before the next
      content, and behind the last there is none. */
  lemma {:induction false} NextDelimiter(items: seq<MultipartFormData>, n: nat, boundary: string, k: nat)
    requires n <= |items| && '\r' !in boundary && (n < |items| ==> WritableHeaders(items[n])) && 0 < k
    ensures OccursAt(FromDelimiter(items, n, boundary), Delimiter(boundary), k) ==>
              n < |items| && |FromDelimiter(items, n, boundary)| - k <= Left(items, n, boundary) + 2
  {
    hide OccursAt, DispositionLine, ContentTypeLine, Delimiter;
    var d, tail := Delimiter(boundary), TailFrom(items, n, boundary);
    DelimiterStart(boundary);
    assert d[2] == '-' by { DelimiterDash(boundary); }
    DelimiterWithout(d, tail);
    if n == |items| {
      ClosingWithout(d);
    } else {
      HeadersWithout(d, items[n], AfterHeaders(items, n, boundary));
    }
  }

  // ----------------------------------------------------- where a late start can be

  /** The only carriage return of both lines is in the same place. */
  lemma SameEnd(o: string, line: string, j: nat)
    requires IsLine(o) && '\r' !in line && OccursAt(line + CRLF, o, j)
    ensures j + |o| == |line| + 2
  {
    var t := line + CRLF;
    var i := j + |o| - 2;
    assert t[j..j + |o|][|o| - 2] == t[i] == '\r';
    assert forall k :: 0 <= k < |line| ==> t[k] == line[k];
  }

  /** An occurrence that starts in a line ends with it. */
  lemma {:induction false} InLine(line: string, rest: string, o: string, j: nat)
    requires IsLine(o) && '\r' !in line && OccursAt(line + CRLF + rest, o, j)
    ensures if j < |line| + 2 then OccursAt(line + CRLF, o, j) && (line + CRLF + rest)[j + |o|..] == rest
            else OccursAt(rest, o, j - |line| - 2)
  {
    hide OccursAt;
    var t := line + CRLF;
    if j < |t| {
      Seam(t, rest, o, j);
      SameEnd(o, line, j);
      assert (t + rest)[|t|..] == rest;
    } else {
      Beyond(t, rest, o, j);
    }
  }

  lemma DashesApart(a: string, b: string, c: string, o: string, j: nat)
    requires '-' !in a && '-' !in b && '-' !in c && b != "" && |o| >= 2 && o[0] == '-' && o[1] == '-'
    ensures !OccursAt(a + "-" + b + "-" + c, o, j)
  {
    var t := a + "-" + b + "-" + c;
    var m := |a| + 1 + |b|;
    assert forall i :: 0 <= i < |a| ==> t[i] == a[i];
    assert forall i :: |a| < i < m ==> t[i] == b[i - |a| - 1];
    assert forall i :: m < i < |t| ==> t[i] == c[i - m - 1];
    if j + |o| <= |t| { assert t[j..j + |o|][0] == t[j] && t[j..j + |o|][1] == t[j + 1]; }
  }

  lemma StartDashes()
    ensures DISPOSITION_START == "Content" + "-" + "Disposition: form" + "-" + "data; "
  {
  }

  /** The disposition line of an item without names has no two dashes in a row. */
  lemma {:induction false} NoDashes(item: MultipartFormData, o: string, j: nat)
    requires item.name == "" && item.filename == "" && |o| >= 2 && o[0] == '-' && o[1] == '-'
    ensures !OccursAt(DispositionLine(item) + CRLF, o, j)
  {
    hide OccursAt;
    var a, b, c, name := "Content", "Disposition: form", "data; ", Quoted("name", "");
    assert DISPOSITION_START == a + "-" + b + "-" + c by { StartDashes(); }
    assert name + "" == name && '-' !in name;
    Append3(a + "-" + b + "-", c, name);
    Append3(a + "-" + b + "-", c + name, CRLF);
    DashesApart(a, b, c + name + CRLF, o, j);
  }

  lemma {:induction false} HeadersRegroup(item: MultipartFormData, after: string)
    ensures HeaderBlock(item) + after == DispositionLine(item) + CRLF + (TypePart(item) + (CRLF + after))
  {
    hide DispositionLine, ContentTypeLine;
    Append3(DispositionLine(item) + CRLF, TypePart(item) + CRLF, after);
    Append3(TypePart(item), CRLF, after);
  }

  lemma Fits(t: string, o: string, j: nat)
    requires OccursAt(t, o, j)
    ensures j + |o| <= |t|
  {
  }

  lemma SuffixOf(o: string, t: string, j: nat)
    requires |o| <= j <= |o| + |t|
    ensures (o + t)[j..] == t[j - |o|..]
  {
  }

  lemma BlankIsNoStart(after: string, o: string, j: nat)
    requires |o| >= 2 && o[0] == '-' && OccursAt(CRLF + after, o, j)
    ensures j >= 2
  {
    assert (CRLF + after)[j..j + |o|][0] == (CRLF + after)[j];
  }

  lemma OpeningDashes(boundary: string)
    ensures Opening(boundary)[1] == '-'
  {
  }

  lemma OnlyOnce(o: string, j: nat)
    ensures OccursAt(o, o, j) ==> j == 0
  {
  }

  lemma {:induction false} BehindType(item: MultipartFormData, after: string, o: string, j: nat)
    requires IsLine(o) && WritableHeaders(item) && OccursAt(TypePart(item) + (CRLF + after), o, j)
    ensures var all := (TypePart(item) + (CRLF + after))[j + |o|..];
            |all| + |o| <= |after| || (item.contentType != "" && all == CRLF + after)
  {
    hide ContentTypeLine, WritableHeaders;
    var blank := CRLF + after;
    if item.contentType == "" {
      assert "" + blank == blank;
      BlankIsNoStart(after, o, j);
    } else {
      DispositionLineClean(item);
      var line := ContentTypeLine(item);
      InLine(line, blank, o, j);
      if j >= |line| + 2 { BlankIsNoStart(after, o, j - |line| - 2); }
    }
  }

  /** An opening in front of the first content, but not at the start of the body, is the end of
      a header line. */
  lemma {:induction false} HeaderStart(item: MultipartFormData, boundary: string, after: string, j: nat)
    requires WritableHeaders(item) && '\r' !in boundary && 0 < j
    requires OccursAt(Opening(boundary) + (HeaderBlock(item) + after), Opening(boundary), j)
    ensures var all := (Opening(boundary) + (HeaderBlock(item) + after))[j + |Opening(boundary)|..];
            |all| + |Opening(boundary)| <= |after|
            || ((item.name != "" || item.filename != "") && all == TypePart(item) + (CRLF + after))
            || (item.contentType != "" && all == CRLF + after)
  {
    hide OccursAt, Opening, DispositionLine, ContentTypeLine, WritableHeaders, HeaderBlock;
    var o, line, blank := Opening(boundary), DispositionLine(item), CRLF + after;
    var inside := HeaderBlock(item) + after;
    OpeningIsLine(boundary);
    DispositionLineClean(item);
    if j < |o| { Seam(o, inside, o, j); }
    assert j >= |o| by { OnlyOnce(o, j); }
    Beyond(o, inside, o, j);
    Fits(o + inside, o, j);
    SuffixOf(o, inside, j + |o|);
    HeadersRegroup(item, after);
    var j1 := j - |o|;
    InLine(line, TypePart(item) + blank, o, j1);
    if j1 < |line| + 2 {
      assert o[1] == '-' by { OpeningDashes(boundary); }
      if item.name == "" && item.filename == "" { NoDashes(item, o, j1); }
    } else {
      var j2 := j1 - |line| - 2;
      SuffixOf(line + CRLF, TypePart(item) + blank, j1 + |o|);
      BehindType(item, after, o, j2);
    }
  }
}
