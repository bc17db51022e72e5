/** Query strings: percent encoding (section 2.1 of RFC 3986), writing and reading parameters. */
module Query {
  import opened Bytes
  import opened Fields

  // ------------------------------------------------------------------ encoding

  predicate IsByte(c: char) { c < '\U{100}' }

  predicate ByteString(s: string) { forall i :: 0 <= i < |s| ==> IsByte(s[i]) }

  predicate KeptByEncoding(c: char) { IsAlnum(c) || c in "-_.!~*'()" }

  function UpperHex(d: nat): (c: char)
    requires d < 16
    ensures HexDigit(c) == Some(d) && c != 'u'
  {
    if d < 10 then ('0' as int + d) as char else ('A' as int + d - 10) as char
  }

  function EncodedByte(c: char): string
    requires IsByte(c)
  {
    if KeptByEncoding(c) then [c] else ['%', UpperHex(c as int / 16), UpperHex(c as int % 16)]
  }

  function EncodedFrom(s: string, i: nat): string
    requires i <= |s| && ByteString(s)
    decreases |s| - i
  {
    if i == |s| then "" else EncodedByte(s[i]) + EncodedFrom(s, i + 1)
  }

  function Encoded(s: string): string
    requires ByteString(s)
  {
    EncodedFrom(s, 0)
  }

  method EncodeQueryParam(value: string) returns (escaped: string)
    requires ByteString(value)
    ensures escaped == Encoded(value)
  {
    escaped := "";
    ghost var rest := Encoded(value);
    for i := 0 to |value|
      invariant rest == EncodedFrom(value, i) && escaped + rest == Encoded(value)
    {
      var c := value[i];
      var text;
      if IsAlnum(c) || c in "-_.!~*'()" {
        text := [c];
      } else {
        text := ['%', UpperHex(c as int / 16), UpperHex(c as int % 16)];
      }
      rest := EncodedFrom(value, i + 1);
      Append3(escaped, text, rest);
      escaped := escaped + text;
    }
  }

  // --------------------------------------------------------- decoding undoes it

  lemma {:induction false} HexRunShift(pre: string, t: string, i: nat, cnt: nat, acc: nat)
    requires i <= |t|
    ensures HexRun(pre + t, |pre| + i, cnt, acc) == HexRun(t, i, cnt, acc)
    decreases cnt
  {
    if cnt > 0 && i < |t| && HexDigit(t[i]).Some? {
      HexRunShift(pre, t, i + 1, cnt - 1, acc * 16 + HexDigit(t[i]).value);
    }
  }

  lemma {:induction false} EscapeShift(pre: string, t: string, i: nat)
    requires i < |t|
    ensures EscapeAt(pre + t, |pre| + i) == EscapeAt(t, i)
  {
    hide HexRun, ToUtf8;
    if t[i] == '%' && i + 1 < |t| {
      HexRunShift(pre, t, i + 1, 2, 0);
      HexRunShift(pre, t, i + 2, 4, 0);
    }
  }

  lemma {:induction false} DecodeShift(pre: string, t: string, plus: bool, i: nat)
    requires i <= |t|
    ensures DecodedFrom(pre + t, plus, |pre| + i) == DecodedFrom(t, plus, i)
    decreases |t| - i
  {
    hide EscapeAt, DecodedFrom;
    if i == |t| {
      DecodedEnd(t, plus);
      DecodedEnd(pre + t, plus);
    } else {
      EscapeShift(pre, t, i);
      DecodedStep(t, plus, i);
      DecodedStep(pre + t, plus, |pre| + i);
      match EscapeAt(t, i)
      case Some(e) => DecodeShift(pre, t, plus, i + e.size);
      case None => DecodeShift(pre, t, plus, i + 1);
    }
  }

  lemma {:induction false} DecodeByte(c: char, rest: string, plus: bool)
    requires IsByte(c)
    ensures UrlDecoded(EncodedByte(c) + rest, plus) == [c] + UrlDecoded(rest, plus)
  {
    var t := EncodedByte(c) + rest;
    DecodeShift(EncodedByte(c), rest, plus, 0);
    if !KeptByEncoding(c) {
      var a, b := c as nat / 16, c as nat % 16;
      assert t[1] == UpperHex(a) && t[2] == UpperHex(b);
      assert HexRun(t, 3, 0, a * 16 + b) == Some(c as nat);
      assert HexRun(t, 2, 1, a) == Some(c as nat);
      assert HexRun(t, 1, 2, 0) == Some(c as nat);
      assert EscapeAt(t, 0) == Some(Escape(3, [c]));
    } else {
      assert t[0] == c != '%' && c != '+';
      assert EscapeAt(t, 0) == None;
    }
  }

  lemma DecodeNothing(plus: bool)
    ensures UrlDecoded("", plus) == ""
  {
  }

  /** Every byte string survives, whether a plus sign stands for a blank or for itself. */
  lemma {:induction false} EncodeDecode(s: string, i: nat, plus: bool)
    requires i <= |s| && ByteString(s)
    ensures UrlDecoded(EncodedFrom(s, i), plus) == s[i..]
    decreases |s| - i
  {
    hide UrlDecoded, EncodedByte;
    if i < |s| {
      EncodeDecode(s, i + 1, plus);
      DecodeByte(s[i], EncodedFrom(s, i + 1), plus);
      assert s[i..] == [s[i]] + s[i + 1..];
    } else {
      assert UrlDecoded("", plus) == "" by { DecodeNothing(plus); }
    }
  }

  predicate CleanValue(e: string) { forall j :: 0 <= j < |e| ==> KeptByEncoding(e[j]) || e[j] == '%' }

  /** Encoding leaves no separator, blank or plus sign in the text. */
  lemma {:induction false} EncodedClean(s: string, i: nat)
    requires i <= |s| && ByteString(s)
    ensures CleanValue(EncodedFrom(s, i))
    decreases |s| - i
  {
    if i < |s| {
      EncodedClean(s, i + 1);
      var a, b := EncodedByte(s[i]), EncodedFrom(s, i + 1);
      assert forall j :: 0 <= j < |a| ==> KeptByEncoding(a[j]) || a[j] == '%';
    }
  }

  // ------------------------------------------------- when decoding changes nothing

  /** A plus sign weighs three, any other byte two. */
  function Weight(s: string): nat {
    if s == "" then 0 else (if s[0] == '+' then 3 else 2) + Weight(s[1..])
  }

  lemma {:induction false} WeightConcat(a: string, b: string)
    ensures Weight(a + b) == Weight(a) + Weight(b)
  {
    if a == "" {
      assert a + b == b;
    } else {
      assert (a + b)[0] == a[0] && (a + b)[1..] == a[1..] + b;
      WeightConcat(a[1..], b);
    }
  }

  lemma {:induction false} WeightBounds(s: string)
    ensures 2 * |s| <= Weight(s) <= 3 * |s|
  {
    if s != "" { WeightBounds(s[1..]); }
  }

  /** A part of a string weighs less unless it is all of it. */
  lemma {:induction false} WeightSlice(s: string, i: nat, j: nat)
    requires i <= j <= |s|
    ensures Weight(s[i..j]) + 2 * (|s| - (j - i)) <= Weight(s)
  {
    hide Weight;
    assert s == s[..i] + s[i..j] + s[j..];
    WeightConcat(s[..i] + s[i..j], s[j..]);
    WeightConcat(s[..i], s[i..j]);
    WeightBounds(s[..i]);
    WeightBounds(s[j..]);
  }

  lemma {:induction false} EscapeWeight(s: string, i: nat)
    requires i < |s| && EscapeAt(s, i).Some?
    ensures Weight(EscapeAt(s, i).value.text) < 2 * EscapeAt(s, i).value.size
  {
    hide HexRun, ToUtf8;
    WeightBounds(EscapeAt(s, i).value.text);
  }

  lemma {:induction false} OneWeight(c: char)
    ensures Weight([c]) == if c == '+' then 3 else 2
  {
    assert [c][1..] == "";
  }

  lemma {:induction false} LongerWeight(s: string, i: nat, n: nat)
    requires i <= n <= |s|
    ensures Weight(s[i..]) >= 2 * (n - i) + Weight(s[n..])
  {
    hide Weight;
    assert s[i..] == s[i..n] + s[n..];
    WeightConcat(s[i..n], s[n..]);
    WeightBounds(s[i..n]);
  }

  /** A byte decoded by itself, in front of anything no heavier than what follows it. */
  lemma {:induction false} ByteWeight(s: string, i: nat, rest: string)
    requires i < |s|
    ensures var out := [if s[i] == '+' then ' ' else s[i]] + rest;
            (Weight(rest) <= Weight(s[i + 1..]) ==> Weight(out) <= Weight(s[i..]))
            && (Weight(rest) <= Weight(s[i + 1..]) && Weight(out) == Weight(s[i..]) ==>
                  Weight(rest) == Weight(s[i + 1..]) && (rest == s[i + 1..] ==> out == s[i..]))
  {
    hide Weight;
    var c := if s[i] == '+' then ' ' else s[i];
    assert s[i..] == [s[i]] + s[i + 1..];
    WeightConcat([s[i]], s[i + 1..]);
    WeightConcat([c], rest);
    OneWeight(c);
    OneWeight(s[i]);
  }

  /** Decoding only loses weight, and loses none only where it changes nothing. */
  lemma {:induction false} DecodeWeight(s: string, i: nat)
    requires i <= |s|
    ensures Weight(DecodedFrom(s, true, i)) <= Weight(s[i..])
    ensures Weight(DecodedFrom(s, true, i)) == Weight(s[i..]) ==> DecodedFrom(s, true, i) == s[i..]
    decreases |s| - i
  {
    hide EscapeAt, DecodedFrom, Weight;
    if i == |s| {
      DecodedEnd(s, true);
      assert s[i..] == "";
    } else {
      DecodedStep(s, true, i);
      var e := EscapeAt(s, i);
      if e.Some? {
        var n := i + e.value.size;
        EscapeWeight(s, i);
        DecodeWeight(s, n);
        LongerWeight(s, i, n);
        WeightConcat(e.value.text, DecodedFrom(s, true, n));
      } else {
        var rest := DecodedFrom(s, true, i + 1);
        DecodeWeight(s, i + 1);
        ByteWeight(s, i, rest);
        assert DecodedFrom(s, true, i) == [if s[i] == '+' then ' ' else s[i]] + rest;
      }
    }
  }

  /** Decoding changes nothing exactly where there is no plus sign and no valid escape. */
  lemma {:induction false} PlainFrom(s: string, i: nat)
    requires i <= |s|
    ensures DecodedFrom(s, true, i) == s[i..] <==> forall j :: i <= j < |s| ==> s[j] != '+' && EscapeAt(s, j).None?
    decreases |s| - i
  {
    hide EscapeAt, DecodedFrom, Weight;
    if i == |s| {
      DecodedEnd(s, true);
    } else {
      DecodedStep(s, true, i);
      var e := EscapeAt(s, i);
      if e.Some? {
        LighterEscape(s, i);
      } else {
        PlainFrom(s, i + 1);
        assert s[i..] == [s[i]] + s[i + 1..];
        assert DecodedFrom(s, true, i)[1..] == DecodedFrom(s, true, i + 1);
      }
    }
  }

  lemma {:induction false} LighterEscape(s: string, i: nat)
    requires i < |s| && EscapeAt(s, i).Some?
    ensures DecodedFrom(s, true, i) != s[i..]
  {
    hide EscapeAt, DecodedFrom, Weight;
    var e := EscapeAt(s, i).value;
    var n := i + e.size;
    DecodedStep(s, true, i);
    EscapeWeight(s, i);
    DecodeWeight(s, n);
    assert s[i..] == s[i..n] + s[n..];
    WeightConcat(s[i..n], s[n..]);
    WeightBounds(s[i..n]);
    WeightConcat(e.text, DecodedFrom(s, true, n));
  }

  lemma PlainDecode(s: string)
    ensures UrlDecoded(s, true) == s <==> forall j :: 0 <= j < |s| ==> s[j] != '+' && EscapeAt(s, j).None?
  {
    PlainFrom(s, 0);
    assert s[0..] == s;
  }

  // ---------------------------------------------------------------- parameters

  type Params = seq<(string, string)>

  /** The order of byte strings. */
  predicate Less(a: string, b: string) {
    b != "" && (a == "" || a[0] < b[0] || (a[0] == b[0] && Less(a[1..], b[1..])))
  }

  /** What a multimap holds: its pairs in the order of their keys. */
  predicate Sorted(params: Params) {
    forall i, j :: 0 <= i < j < |params| ==> !Less(params[j].0, params[i].0)
  }

  /** First entry with a greater key. */
  function UpperBound(params: Params, key: string, i: nat): (k: nat)
    requires i <= |params|
    ensures i <= k <= |params|
    decreases |params| - i
  {
    if i == |params| || Less(key, params[i].0) then i else UpperBound(params, key, i + 1)
  }

  function Emplaced(params: Params, p: (string, string)): Params {
    var k := UpperBound(params, p.0, 0);
    params[..k] + [p] + params[k..]
  }

  function Kv(p: (string, string)): string
    requires ByteString(p.1)
  {
    p.0 + "=" + Encoded(p.1)
  }

  predicate ByteValues(params: Params) { forall i :: 0 <= i < |params| ==> ByteString(params[i].1) }

  function QueryText(params: Params, n: nat): string
    requires n <= |params| && ByteValues(params)
    decreases |params| - n
  {
    if n == |params| then "" else (if n == 0 then "" else "&") + Kv(params[n]) + QueryText(params, n + 1)
  }

  method ParamsToQueryStr(params: Params) returns (query: string)
    requires ByteValues(params)
    ensures query == QueryText(params, 0)
  {
    hide Encoded;
    query := "";
    ghost var rest := QueryText(params, 0);
    for n := 0 to |params|
      invariant rest == QueryText(params, n) && query + rest == QueryText(params, 0)
    {
      ghost var before := query;
      if n != 0 { query := query + "&"; }
      query := query + params[n].0;
      query := query + "=";
      var value := EncodeQueryParam(params[n].1);
      query := query + value;
      rest := QueryText(params, n + 1);
      WrittenPair(before, if n == 0 then "" else "&", params[n], rest);
    }
  }

  lemma {:induction false} WrittenPair(before: string, sep: string, p: (string, string), rest: string)
    requires ByteString(p.1)
    ensures before + (sep + Kv(p) + rest) == before + sep + p.0 + "=" + Encoded(p.1) + rest
    ensures before + "" == before
  {
    hide Encoded;
  }

  /** Key and value of one piece, decoded; a piece without a key is dropped. */
  function ParsedPair(kv: string): Option<(string, string)> {
    var k := IndexOf(kv, '=');
    if k == 0 then None
    else Some((UrlDecoded(kv[..k], true), UrlDecoded(if k < |kv| then kv[k + 1..] else "", true)))
  }

  function WithPiece(params: Params, pieces: seq<string>, n: nat): Params
    requires n < |pieces|
  {
    if pieces[n] in pieces[..n] then params
    else match ParsedPair(pieces[n]) case None => params case Some(p) => Emplaced(params, p)
  }

  /** Parameters after the pieces from `n` on; a repeated piece counts once. */
  function WithPieces(params: Params, pieces: seq<string>, n: nat): Params
    requires n <= |pieces|
    decreases |pieces| - n
  {
    if n == |pieces| then params else WithPieces(WithPiece(params, pieces, n), pieces, n + 1)
  }

  lemma WithPiecesStep(params: Params, pieces: seq<string>, n: nat)
    requires n < |pieces|
    ensures WithPieces(params, pieces, n) == WithPieces(WithPiece(params, pieces, n), pieces, n + 1)
  {
  }

  method AddPair(params0: Params, kv: string) returns (params: Params)
    ensures params == if ParsedPair(kv).None? then params0 else Emplaced(params0, ParsedPair(kv).value)
  {
    hide UrlDecoded, Emplaced;
    params := params0;
    var k := FindByte(kv, '=');
    if k != 0 {
      var key := DecodeUrl(kv[..k], true);
      var val := DecodeUrl(if k < |kv| then kv[k + 1..] else "", true);
      params := Emplaced(params, (key, val));
    }
  }

  method ParseQueryText(s: string, params0: Params) returns (params: Params)
    ensures params == WithPieces(params0, Pieces(s, '&'), 0)
  {
    hide ParsedPair, Emplaced, WithPieces;
    params := params0;
    var cache: set<string> := {};
    var pieces := Split(s, '&');
    for n := 0 to |pieces|
      invariant forall p :: p in cache <==> p in pieces[..n]
      invariant WithPieces(params, pieces, n) == WithPieces(params0, pieces, 0)
    {
      var kv := pieces[n];
      TakeNext(pieces, n);
      WithPiecesStep(params, pieces, n);
      if kv !in cache {
        cache := cache + {kv};
        params := AddPair(params, kv);
      }
    }
    assert WithPieces(params, pieces, |pieces|) == params by { NoMorePieces(params, pieces); }
  }

  lemma NoMorePieces(params: Params, pieces: seq<string>)
    ensures WithPieces(params, pieces, |pieces|) == params
  {
  }

  // ------------------------------------------------------- what pieces and maps are

  /** A piece is cut at its first equals sign; without one it is a key, and without a key it
      is nothing. */
  lemma {:induction false} PieceMeans(key: string, val: string)
    requires '=' !in key
    ensures ParsedPair(key + "=" + val)
            == if key == "" then None else Some((UrlDecoded(key, true), UrlDecoded(val, true)))
    ensures key != "" ==> ParsedPair(key) == Some((UrlDecoded(key, true), ""))
  {
    hide UrlDecoded;
    var kv := key + "=" + val;
    assert kv[|key|] == '=' && forall i :: 0 <= i < |key| ==> kv[i] == key[i];
    assert IndexOf(kv, '=') == |key| && IndexOf(key, '=') == |key|;
    assert kv[..|key|] == key && kv[|key| + 1..] == val && key[..|key|] == key;
    DecodeNothing(true);
  }

  /** One string is less than another if it is a proper beginning of it or has the smaller byte
      where they first differ. */
  lemma {:induction false} LessMeans(a: string, b: string, k: nat)
    requires k <= |a| && k <= |b| && a[..k] == b[..k]
    ensures k == |a| ==> (Less(a, b) <==> |a| < |b|)
    ensures k == |b| ==> !Less(a, b)
    ensures k < |a| && k < |b| && a[k] != b[k] ==> (Less(a, b) <==> a[k] < b[k])
    decreases k
  {
    if k > 0 {
      assert a[0] == a[..k][0] == b[..k][0] == b[0];
      assert a[1..][..k - 1] == a[..k][1..] == b[..k][1..] == b[1..][..k - 1];
      LessMeans(a[1..], b[1..], k - 1);
    }
  }

  lemma {:induction false} NotBoth(a: string, b: string)
    ensures !(Less(a, b) && Less(b, a))
    decreases |a|
  {
    if a != "" && b != "" && a[0] == b[0] { NotBoth(a[1..], b[1..]); }
  }

  lemma {:induction false} LessChain(a: string, b: string, c: string)
    ensures Less(a, b) && !Less(c, b) ==> Less(a, c)
    decreases |b|
  {
    if a != "" && b != "" && c != "" && a[0] == b[0] == c[0] { LessChain(a[1..], b[1..], c[1..]); }
  }

  lemma {:induction false} BoundSplits(params: Params, key: string, i: nat)
    requires i <= |params| && Sorted(params)
    ensures var k := UpperBound(params, key, i);
            (forall j :: i <= j < k ==> !Less(key, params[j].0))
            && forall j :: k <= j < |params| ==> Less(key, params[j].0)
    decreases |params| - i
  {
    hide Less;
    if i < |params| {
      if Less(key, params[i].0) {
        forall j | i <= j < |params| ensures Less(key, params[j].0) { LessChain(key, params[i].0, params[j].0); }
      } else {
        BoundSplits(params, key, i + 1);
      }
    }
  }

  /** A new pair goes behind all pairs with the same or a smaller key and in front of all
      others, and the map stays sorted. */
  lemma {:induction false} EmplacedMeans(params: Params, p: (string, string))
    requires Sorted(params)
    ensures var r := Emplaced(params, p);
            Sorted(r)
            && exists k :: 0 <= k <= |params| && r == params[..k] + [p] + params[k..]
                           && (forall j :: 0 <= j < k ==> !Less(p.0, params[j].0))
                           && (forall j :: k <= j < |params| ==> Less(p.0, params[j].0))
  {
    hide Less, UpperBound;
    var k := UpperBound(params, p.0, 0);
    BoundSplits(params, p.0, 0);
    var r := params[..k] + [p] + params[k..];
    forall i, j | 0 <= i < j < |r| ensures !Less(r[j].0, r[i].0) {
      if i == k { NotBoth(p.0, r[j].0); }
      else if j == k { }
      else {
        var i0, j0 := if i < k then i else i - 1, if j < k then j else j - 1;
        assert r[i] == params[i0] && r[j] == params[j0];
      }
    }
  }

  lemma {:induction false} StaysSorted(params: Params, pieces: seq<string>, n: nat)
    requires n <= |pieces| && Sorted(params)
    ensures Sorted(WithPieces(params, pieces, n))
    decreases |pieces| - n
  {
    hide Sorted, Emplaced, ParsedPair;
    if n < |pieces| {
      var p := ParsedPair(pieces[n]);
      if p.Some? { EmplacedMeans(params, p.value); }
      StaysSorted(WithPiece(params, pieces, n), pieces, n + 1);
    }
  }

  // ----------------------------------------------------------------- round trip

  /** A key that can be written as it is. */
  predicate PlainKey(key: string) {
    key != "" && '&' !in key && '=' !in key && !IsBlank(key[0])
    && forall j :: 0 <= j < |key| ==> key[j] != '+' && EscapeAt(key, j).None?
  }

  lemma {:induction false} PairRead(p: (string, string))
    requires PlainKey(p.0) && ByteString(p.1)
    ensures ParsedPair(Kv(p)) == Some(p)
    ensures '&' !in Kv(p) && Trimmed(Kv(p)) == Kv(p) && Kv(p) != ""
  {
    hide UrlDecoded, Encoded, Trimmed, EncodedFrom, EscapeAt;
    var (key, val) := p;
    PlainDecode(key);
    var e := Encoded(val);
    var kv := Kv(p);
    EncodeDecode(val, 0, true);
    EncodedClean(val, 0);
    EncodedIsFrom(val);
    assert val[0..] == val;
    PairSplit(key, e);
    PairClean(key, e);
  }

  lemma EncodedIsFrom(s: string)
    requires ByteString(s)
    ensures Encoded(s) == EncodedFrom(s, 0)
  {
  }

  lemma PairSplit(key: string, e: string)
    requires '=' !in key
    ensures var kv := key + "=" + e;
            IndexOf(kv, '=') == |key| && kv[..|key|] == key && kv[|key| + 1..] == e
  {
    var kv := key + "=" + e;
    assert kv[|key|] == '=' && forall i :: 0 <= i < |key| ==> kv[i] == key[i];
  }

  lemma PairClean(key: string, e: string)
    requires key != "" && '&' !in key && !IsBlank(key[0])
    requires CleanValue(e)
    ensures var kv := key + "=" + e; '&' !in kv && Trimmed(kv) == kv
  {
    var kv := key + "=" + e;
    forall j | 0 <= j < |kv| ensures kv[j] != '&' {
      if j < |key| { assert kv[j] == key[j]; }
    }
    assert kv[0] == key[0];
    TrimmedIdentity(kv);
  }

  predicate PlainParams(params: Params) {
    ByteValues(params) && forall i :: 0 <= i < |params| ==> PlainKey(params[i].0)
  }

  function Texts(params: Params, n: nat): (r: seq<string>)
    requires n <= |params| && ByteValues(params)
    ensures |r| == |params| - n && forall i :: 0 <= i < |r| ==> r[i] == Kv(params[n + i])
    decreases |params| - n
  {
    if n == |params| then [] else [Kv(params[n])] + Texts(params, n + 1)
  }

  /** Splitting the query at the ampersands gives back the written pairs. */
  lemma {:induction false} QueryPieces(params: Params, n: nat)
    requires n < |params| && PlainParams(params)
    ensures Pieces(Kv(params[n]) + QueryText(params, n + 1), '&') == Texts(params, n)
    decreases |params| - n
  {
    hide Kv, Pieces, Trimmed, PlainKey;
    var kv := Kv(params[n]);
    PairRead(params[n]);
    if n + 1 == |params| {
      assert kv + "" == kv;
      PiecesNone(kv, '&');
      assert [kv] + [] == [kv];
    } else {
      var more := Kv(params[n + 1]) + QueryText(params, n + 2);
      Ampersand(kv, Kv(params[n + 1]), QueryText(params, n + 2));
      PiecesCons(kv, '&', more);
      QueryPieces(params, n + 1);
    }
  }

  lemma Ampersand(kv: string, next: string, more: string)
    ensures kv + ("&" + next + more) == kv + ['&'] + (next + more)
  {
  }

  predicate DistinctUpTo(params: Params, n: nat)
    requires n <= |params|
  {
    forall i, j :: 0 <= i < j < n ==> params[i] != params[j]
  }

  lemma {:induction false} FreshPiece(params: Params, n: nat)
    requires n < |params| && PlainParams(params)
    ensures var t := Texts(params, 0);
            t[n] in t[..n] <==> exists i :: 0 <= i < n && params[i] == params[n]
  {
    hide Kv, PlainKey;
    var t := Texts(params, 0);
    PairRead(params[n]);
    forall i | 0 <= i < n ensures t[i] == t[n] <==> params[i] == params[n] { PairRead(params[i]); }
    if i :| 0 <= i < n && params[i] == params[n] { assert t[..n][i] == t[n]; }
  }

  lemma {:induction false} NoneGreater(params: Params, key: string, i: nat)
    requires i <= |params| && forall j :: 0 <= j < |params| ==> !Less(key, params[j].0)
    ensures UpperBound(params, key, i) == |params|
    decreases |params| - i
  {
    hide Less;
    if i < |params| { NoneGreater(params, key, i + 1); }
  }

  lemma {:induction false} EmplacedLast(params: Params, n: nat)
    requires n < |params| && Sorted(params)
    ensures Emplaced(params[..n], params[n]) == params[..n + 1]
  {
    hide Less;
    NoneGreater(params[..n], params[n].0, 0);
    TakeNext(params, n);
    assert params[..n][..n] == params[..n];
  }

  lemma {:induction false} PairsRead(params: Params, n: nat)
    requires n <= |params| && PlainParams(params) && Sorted(params) && DistinctUpTo(params, |params|)
    ensures WithPieces(params[..n], Texts(params, 0), n) == params
    decreases |params| - n
  {
    hide Kv, PlainKey, ParsedPair, Emplaced, Sorted;
    if n < |params| {
      FreshPiece(params, n);
      PairRead(params[n]);
      EmplacedLast(params, n);
      PairsRead(params, n + 1);
    } else {
      assert params[..n] == params;
    }
  }

  /** A repeated piece adds nothing. */
  lemma {:induction false} PiecesCount(params: Params, pieces: seq<string>, n: nat)
    requires n <= |pieces|
    ensures |WithPieces(params, pieces, n)| <= |params| + |pieces| - n
    ensures (exists m :: n <= m < |pieces| && pieces[m] in pieces[..m]) ==>
              |WithPieces(params, pieces, n)| < |params| + |pieces| - n
    decreases |pieces| - n
  {
    hide ParsedPair, UpperBound;
    if n < |pieces| { PiecesCount(WithPiece(params, pieces, n), pieces, n + 1); }
  }

  /** Parameters whose keys need no encoding come back unchanged exactly when no pair is
      repeated. */
  lemma {:induction false} PlainRoundTrip(params: Params)
    requires PlainParams(params) && Sorted(params)
    ensures WithPieces([], Pieces(QueryText(params, 0), '&'), 0) == params <==> DistinctUpTo(params, |params|)
  {
    hide Kv, PlainKey, Pieces, WithPieces, Sorted, QueryText, Texts;
    if params == [] {
      EmptyQuery(params);
    } else {
      WholeQuery(params);
      if DistinctUpTo(params, |params|) {
        PairsRead(params, 0);
        assert params[..0] == [];
      } else {
        var i, j :| 0 <= i < j < |params| && params[i] == params[j];
        FreshPiece(params, j);
        PiecesCount([], Texts(params, 0), 0);
      }
    }
  }

  lemma {:induction false} WholeQuery(params: Params)
    requires params != [] && PlainParams(params)
    ensures Pieces(QueryText(params, 0), '&') == Texts(params, 0)
  {
    hide Kv, PlainKey, Pieces;
    assert "" + Kv(params[0]) == Kv(params[0]);
    QueryPieces(params, 0);
  }

  lemma EmptyQuery(params: Params)
    requires params == []
    ensures WithPieces([], Pieces(QueryText(params, 0), '&'), 0) == params
  {
    assert Pieces("", '&') == [];
  }

  // ------------------------------------- why every key must be plain: a weight argument

  function PairWeight(p: (string, string)): nat { 1 + Weight(p.0) }

  function Contribution(piece: string): nat {
    if ParsedPair(piece).None? then 0 else PairWeight(ParsedPair(piece).value)
  }

  function Total(pieces: seq<string>, n: nat): nat
    requires n <= |pieces|
    decreases |pieces| - n
  {
    if n == |pieces| then 0 else Contribution(pieces[n]) + Total(pieces, n + 1)
  }

  /** The key of a piece lies in front of its first equals sign. */
  lemma {:induction false} PieceWeight(piece: string)
    ensures var k := IndexOf(piece, '=');
            Contribution(piece) <= if k == 0 then 0 else 1 + Weight(piece[..k])
    ensures var k := IndexOf(piece, '=');
            k > 0 && Contribution(piece) == 1 + Weight(piece[..k]) ==> UrlDecoded(piece[..k], true) == piece[..k]
  {
    hide Weight, DecodedFrom;
    var key := piece[..IndexOf(piece, '=')];
    DecodeWeight(key, 0);
    assert key[0..] == key;
  }

  lemma {:induction false} TotalShift(a: seq<string>, b: seq<string>, n: nat)
    requires n <= |b|
    ensures Total(a + b, |a| + n) == Total(b, n)
    decreases |b| - n
  {
    hide Contribution;
    if n < |b| { TotalShift(a, b, n + 1); }
  }

  lemma {:induction false} TotalCons(x: string, rest: seq<string>)
    ensures Total(Kept(x) + rest, 0) == Contribution(x) + Total(rest, 0)
  {
    TotalShift(Kept(x), rest, 0);
    if x == "" { assert Kept(x) + rest == rest && Contribution("") == 0; }
  }

  /** The weight of a stretch without ampersands. */
  lemma {:induction false} StretchWeight(a: string)
    ensures Contribution(Trimmed(a)) <= 1 + Weight(a)
  {
    hide Weight, Contribution;
    var t := Trimmed(a);
    var l, r := SkipBlanks(a, 0), DropBlanks(a, |a|);
    if l < r {
      assert t == a[l..r];
      WeightSlice(a, l, r);
    } else {
      WeightSlice(a, 0, 0);
      assert t == a[0..0];
    }
    PieceWeight(t);
    WeightSlice(t, 0, IndexOf(t, '='));
    assert t[0..IndexOf(t, '=')] == t[..IndexOf(t, '=')];
  }

  lemma {:induction false} TrimmedSegment(k: string, e: string)
    requires CleanValue(e)
    ensures var a := k + "=" + e;
            var l := SkipBlanks(a, 0);
            l <= |k| && Trimmed(a) == a[l..] && (l == 0 ==> k == "" || !IsBlank(k[0]))
  {
    var a := k + "=" + e;
    assert a[|k|] == '=';
    if k != "" { assert a[0] == k[0]; }
    assert !IsBlank(a[|a| - 1]);
    assert a[SkipBlanks(a, 0)..|a|] == a[SkipBlanks(a, 0)..];
  }

  lemma {:induction false} IndexInSuffix(a: string, l: nat, q: nat)
    requires l <= q < |a| && IndexOf(a, '=') == q
    ensures IndexOf(a[l..], '=') == q - l && a[l..][..q - l] == a[l..q]
  {
    var t := a[l..];
    assert t[q - l] == '=' && forall i :: 0 <= i < q - l ==> t[i] == a[l + i];
  }

  lemma {:induction false} FirstEquals(k: string, e: string)
    ensures var q := IndexOf(k + "=" + e, '=');
            q <= |k| && (k + "=" + e)[..q] == k[..q] && (q == |k| ==> '=' !in k)
  {
    var a := k + "=" + e;
    assert a[|k|] == '=';
    var q := IndexOf(a, '=');
    if q == |k| { assert forall i :: 0 <= i < q ==> k[i] == a[i]; }
  }

  /** A written pair without ampersands in its key. */
  lemma {:induction false} PairContribution(k: string, e: string)
    requires '&' !in k && CleanValue(e)
    ensures var t := Trimmed(k + "=" + e);
            t != "" && Contribution(t) <= 1 + Weight(k) && (Contribution(t) == 1 + Weight(k) ==> PlainKey(k))
  {
    hide Weight, Contribution, Trimmed, SkipBlanks, UrlDecoded, EscapeAt;
    var a := k + "=" + e;
    TrimmedSegment(k, e);
    var l := SkipBlanks(a, 0);
    var q := IndexOf(a, '=');
    FirstEquals(k, e);
    assert l <= q;
    IndexInSuffix(a, l, q);
    PieceWeight(a[l..]);
    SliceOfKey(a, k, l, q);
    WeightSlice(k, l, q);
    if Contribution(a[l..]) == 1 + Weight(k) {
      assert l == 0 && q == |k|;
      assert k[0..|k|] == k;
      PlainDecode(k);
    }
  }

  lemma SliceOfKey(a: string, k: string, l: nat, q: nat)
    requires l <= q <= |k| && |k| <= |a| && a[..q] == k[..q]
    ensures a[l..q] == k[l..q]
  {
    assert a[l..q] == a[..q][l..];
    assert k[l..q] == k[..q][l..];
  }

  /** The end of the query behind one pair. */
  function Behind(tail: string): string { if tail == "" then "" else tail[1..] }

  /** Pieces of a written pair and of what follows it. */
  lemma {:induction false} SegmentWeight(k: string, e: string, tail: string)
    requires CleanValue(e) && (tail != "" ==> tail[0] == '&')
    ensures var total := Total(Pieces(k + "=" + e + tail, '&'), 0);
            var bound := 1 + Weight(k) + Total(Pieces(Behind(tail), '&'), 0);
            total <= bound && (total == bound ==> PlainKey(k))
    decreases |k|
  {
    hide Weight, Contribution, Trimmed, Pieces, PlainKey, CleanValue, Total;
    var i := IndexOf(k, '&');
    if i < |k| {
      var k' := k[i + 1..];
      assert k == k[..i] + ['&'] + k';
      assert k + "=" + e + tail == k[..i] + ['&'] + (k' + "=" + e + tail);
      PiecesCons(k[..i], '&', k' + "=" + e + tail);
      TotalCons(Trimmed(k[..i]), Pieces(k' + "=" + e + tail, '&'));
      StretchWeight(k[..i]);
      SegmentWeight(k', e, tail);
      WeightConcat(k[..i] + ['&'], k');
      WeightConcat(k[..i], ['&']);
      OneWeight('&');
    } else {
      PairContribution(k, e);
      LastSegment(k, e, tail);
    }
  }

  lemma {:induction false} LastSegment(k: string, e: string, tail: string)
    requires '&' !in k && CleanValue(e) && (tail != "" ==> tail[0] == '&')
    ensures Total(Pieces(k + "=" + e + tail, '&'), 0)
            == Contribution(Trimmed(k + "=" + e)) + Total(Pieces(Behind(tail), '&'), 0)
  {
    hide Contribution, Trimmed, Pieces, Total;
    var a := k + "=" + e;
    NoAmpersand(k, e);
    if tail == "" {
      assert a + "" == a;
      PiecesNone(a, '&');
      EmptyPieces();
      TotalCons(Trimmed(a), []);
      assert Kept(Trimmed(a)) + [] == Kept(Trimmed(a));
    } else {
      assert a + tail == a + ['&'] + tail[1..];
      PiecesCons(a, '&', tail[1..]);
      TotalCons(Trimmed(a), Pieces(tail[1..], '&'));
    }
  }

  lemma EmptyPieces()
    ensures Pieces("", '&') == [] && Total([], 0) == 0
  {
  }

  lemma NoAmpersand(k: string, e: string)
    requires '&' !in k && CleanValue(e)
    ensures '&' !in k + "=" + e
  {
    var a := k + "=" + e;
    forall j | 0 <= j < |a| ensures a[j] != '&' {
      if j < |k| { assert a[j] == k[j]; }
    }
  }

  /** The weight of all keys from `n` on, one more for each pair. */
  function KeysWeight(params: Params, n: nat): nat
    requires n <= |params|
    decreases |params| - n
  {
    if n == |params| then 0 else PairWeight(params[n]) + KeysWeight(params, n + 1)
  }

  /** The query from pair `n` on, without the ampersand before it. */
  function TextFrom(params: Params, n: nat): string
    requires n <= |params| && ByteValues(params)
  {
    if n == 0 then QueryText(params, 0) else Behind(QueryText(params, n))
  }

  lemma {:induction false} QueryWeight(params: Params, n: nat)
    requires n <= |params| && ByteValues(params)
    ensures var total := Total(Pieces(TextFrom(params, n), '&'), 0);
            total <= KeysWeight(params, n)
            && (total == KeysWeight(params, n) ==> forall i :: n <= i < |params| ==> PlainKey(params[i].0))
    decreases |params| - n
  {
    hide Weight, Contribution, Pieces, PlainKey, Total, Encoded, QueryText, TextFrom, CleanValue;
    if n == |params| {
      EmptyPieces();
      TextEnd(params);
    } else {
      QueryWeight(params, n + 1);
      ValueClean(params[n].1);
      TailStart(params, n + 1);
      SegmentWeight(params[n].0, Encoded(params[n].1), QueryText(params, n + 1));
      TextAt(params, n);
    }
  }

  lemma ValueClean(value: string)
    requires ByteString(value)
    ensures CleanValue(Encoded(value))
  {
    EncodedClean(value, 0);
  }

  lemma TextEnd(params: Params)
    requires ByteValues(params)
    ensures TextFrom(params, |params|) == ""
  {
  }

  lemma TailStart(params: Params, n: nat)
    requires 0 < n <= |params| && ByteValues(params)
    ensures QueryText(params, n) != "" ==> QueryText(params, n)[0] == '&'
  {
  }

  lemma {:induction false} TextAt(params: Params, n: nat)
    requires n < |params| && ByteValues(params)
    ensures TextFrom(params, n) == params[n].0 + "=" + Encoded(params[n].1) + QueryText(params, n + 1)
    ensures TextFrom(params, n + 1) == Behind(QueryText(params, n + 1))
  {
    hide Encoded;
    var tail, kv, more := QueryText(params, n), Kv(params[n]), QueryText(params, n + 1);
    if n == 0 {
      assert "" + kv == kv;
    } else {
      assert tail == "&" + kv + more;
      assert tail[1..] == kv + more;
    }
  }

  lemma {:induction false} KeysWeightConcat(a: Params, b: Params, n: nat)
    requires n <= |a|
    ensures KeysWeight(a + b, n) == KeysWeight(a, n) + KeysWeight(b, 0)
    decreases |a| - n
  {
    hide PairWeight;
    if n < |a| { KeysWeightConcat(a, b, n + 1); } else { KeysWeightShift(a, b, 0); }
  }

  lemma {:induction false} KeysWeightShift(a: Params, b: Params, n: nat)
    requires n <= |b|
    ensures KeysWeight(a + b, |a| + n) == KeysWeight(b, n)
    decreases |b| - n
  {
    hide PairWeight;
    if n < |b| { KeysWeightShift(a, b, n + 1); }
  }

  lemma {:induction false} EmplacedWeight(params: Params, p: (string, string))
    ensures KeysWeight(Emplaced(params, p), 0) == KeysWeight(params, 0) + PairWeight(p)
  {
    hide PairWeight, UpperBound;
    var k := UpperBound(params, p.0, 0);
    KeysWeightConcat(params[..k] + [p], params[k..], 0);
    KeysWeightConcat(params[..k], [p], 0);
    KeysWeightConcat(params[..k], params[k..], 0);
    assert params[..k] + params[k..] == params;
    assert KeysWeight([p], 1) == 0;
  }

  lemma {:induction false} ReadWeight(params: Params, pieces: seq<string>, n: nat)
    requires n <= |pieces|
    ensures KeysWeight(WithPieces(params, pieces, n), 0) <= KeysWeight(params, 0) + Total(pieces, n)
    decreases |pieces| - n
  {
    hide KeysWeight, ParsedPair, Emplaced, PairWeight;
    if n < |pieces| {
      if ParsedPair(pieces[n]).Some? { EmplacedWeight(params, ParsedPair(pieces[n]).value); }
      ReadWeight(WithPiece(params, pieces, n), pieces, n + 1);
    }
  }

  /** Parameters come back unchanged exactly when no pair is repeated and every key can stand
      as it is written: the writer encodes values but not keys. */
  lemma {:induction false} QueryRoundTrip(params: Params)
    requires ByteValues(params) && Sorted(params)
    ensures WithPieces([], Pieces(QueryText(params, 0), '&'), 0) == params
            <==> DistinctUpTo(params, |params|) && PlainParams(params)
  {
    hide QueryText, PlainKey, Pieces, WithPieces, Sorted, Total, KeysWeight;
    var pieces := Pieces(QueryText(params, 0), '&');
    if PlainParams(params) {
      PlainRoundTrip(params);
    } else {
      QueryWeight(params, 0);
      ReadWeight([], pieces, 0);
      assert KeysWeight([], 0) == 0 by { NoKeys(); }
    }
  }

  lemma NoKeys()
    ensures KeysWeight([], 0) == 0
  {
  }
}
