/** Header fields: the grammar of names and values (sections 5.1 and 5.5 of RFC 9110),
    percent decoding, and one parsed header line. */
module Fields {
  import opened Bytes

  const HEADER_MAX_LENGTH := 8192

  // ------------------------------------------------------------ field grammar

  predicate IsTokenChar(c: char) { IsAlnum(c) || c in "!#$%&'*+-.^_`|~" }

  predicate IsFieldName(s: string) { s != "" && forall i :: 0 <= i < |s| ==> IsTokenChar(s[i]) }

  predicate IsFieldVchar(c: char) { '!' <= c <= '~' || '\U{80}' <= c }

  predicate IsFieldChar(c: char) { IsBlank(c) || IsFieldVchar(c) }

  /** Empty, or visible at both ends with spaces and tabs only inside. */
  predicate IsFieldValue(s: string) {
    s == "" ||
    (IsFieldVchar(s[0]) && IsFieldVchar(s[|s| - 1]) && forall i :: 0 <= i < |s| ==> IsFieldChar(s[i]))
  }

  method IsToken(s: string) returns (r: bool)
    ensures r == IsFieldName(s)
  {
    if s == "" { return false; }
    for i := 0 to |s|
      invariant forall j :: 0 <= j < i ==> IsTokenChar(s[j])
    {
      if !IsTokenChar(s[i]) { return false; }
    }
    return true;
  }

  method IsFieldContent(s: string) returns (r: bool)
    ensures r == IsFieldValue(s)
  {
    if s == "" { return true; }
    if |s| == 1 { return IsFieldVchar(s[0]); }
    if |s| == 2 {
      return IsFieldVchar(s[0]) && IsFieldVchar(s[1]);
    }
    var i := 0;
    if !IsFieldVchar(s[i]) { return false; }
    i := i + 1;
    while i < |s| - 1
      invariant 1 <= i <= |s| - 1
      invariant forall j :: 0 <= j < i ==> IsFieldChar(s[j])
    {
      var c := s[i];
      i := i + 1;
      if !(c == ' ' || c == '\t' || IsFieldVchar(c)) { return false; }
    }
    return IsFieldVchar(s[i]);
  }

  // ---------------------------------------------------------- percent decoding

  function HexDigit(c: char): (v: Option<nat>)
    ensures v.Some? ==> v.value < 16
  {
    if IsDigit(c) then Some(c as int - '0' as int)
    else if 'A' <= c <= 'F' then Some(c as int - 'A' as int + 10)
    else if 'a' <= c <= 'f' then Some(c as int - 'a' as int + 10)
    else None
  }

  /** The value of the `cnt` hexadecimal digits at `i`, most significant first. */
  function HexRun(s: string, i: nat, cnt: nat, acc: nat): Option<nat>
    decreases cnt
  {
    if cnt == 0 then Some(acc)
    else if i >= |s| then None
    else match HexDigit(s[i])
      case None => None
      case Some(v) => HexRun(s, i + 1, cnt - 1, acc * 16 + v)
  }

  method FromHexToI(s: string, i0: nat, cnt0: nat) returns (val: Option<nat>)
    requires cnt0 > 0
    ensures val == HexRun(s, i0, cnt0, 0)
  {
    if i0 >= |s| { return None; }
    var i: nat, cnt: nat, v: nat := i0, cnt0, 0;
    while cnt > 0
      invariant HexRun(s, i, cnt, v) == HexRun(s, i0, cnt0, 0)
    {
      if i >= |s| || s[i] == '\0' { return None; }
      var d := HexDigit(s[i]);
      if d.None? { return None; }
      v := v * 16 + d.value;
      i, cnt := i + 1, cnt - 1;
    }
    return Some(v);
  }

  lemma {:induction false} HexRunBound(s: string, i: nat, cnt: nat, acc: nat, bound: nat)
    requires cnt == 0 ==> acc < bound
    requires cnt == 1 ==> acc * 16 + 15 < bound
    requires cnt == 2 ==> acc * 256 + 255 < bound
    requires cnt == 3 ==> acc * 4096 + 4095 < bound
    requires cnt == 4 ==> acc * 65536 + 65535 < bound
    requires cnt <= 4
    ensures HexRun(s, i, cnt, acc).Some? ==> HexRun(s, i, cnt, acc).value < bound && (cnt > 0 ==> i + cnt <= |s|)
    decreases cnt
  {
    if cnt > 0 && i < |s| && HexDigit(s[i]).Some? {
      HexRunBound(s, i + 1, cnt - 1, acc * 16 + HexDigit(s[i]).value, bound);
    }
  }

  /** The one to three bytes of a code point below 0x10000; none for a surrogate. */
  function ToUtf8(code: nat): (r: string)
    requires code < 0x10000
    ensures |r| <= 3
  {
    if code < 0x80 then [code as char]
    else if code < 0x800 then [(0xC0 + code / 64) as char, (0x80 + code % 64) as char]
    else if 0xD800 <= code < 0xE000 then []
    else [(0xE0 + code / 4096) as char, (0x80 + code / 64 % 64) as char, (0x80 + code % 64) as char]
  }

  /** An escape that decoding replaces: how many bytes it takes and what it stands for. */
  datatype Escape = Escape(size: nat, text: string)

  function EscapeAt(s: string, i: nat): (e: Option<Escape>)
    requires i < |s|
    ensures e.Some? ==> 3 <= e.value.size && |e.value.text| < e.value.size && i + e.value.size <= |s|
  {
    if s[i] != '%' || i + 1 >= |s| then None
    else if s[i + 1] == 'u' then
      (HexRunBound(s, i + 2, 4, 0, 0x10000);
       match HexRun(s, i + 2, 4, 0) case None => None case Some(v) => Some(Escape(6, ToUtf8(v))))
    else
      (HexRunBound(s, i + 1, 2, 0, 256);
       match HexRun(s, i + 1, 2, 0) case None => None case Some(v) => Some(Escape(3, [v as char])))
  }

  function DecodedFrom(s: string, plus: bool, i: nat): string
    requires i <= |s|
    decreases |s| - i
  {
    if i == |s| then ""
    else match EscapeAt(s, i)
      case Some(e) => e.text + DecodedFrom(s, plus, i + e.size)
      case None => [if plus && s[i] == '+' then ' ' else s[i]] + DecodedFrom(s, plus, i + 1)
  }

  function UrlDecoded(s: string, plus: bool): string { DecodedFrom(s, plus, 0) }

  lemma {:induction false} DecodedStep(s: string, plus: bool, i: nat)
    requires i < |s|
    ensures DecodedFrom(s, plus, i) ==
            if EscapeAt(s, i).Some?
            then EscapeAt(s, i).value.text + DecodedFrom(s, plus, i + EscapeAt(s, i).value.size)
            else [if plus && s[i] == '+' then ' ' else s[i]] + DecodedFrom(s, plus, i + 1)
  {
    hide EscapeAt;
  }

  lemma DecodedEnd(s: string, plus: bool)
    ensures DecodedFrom(s, plus, |s|) == ""
  {
  }

  method DecodeUrl(s: string, convertPlusToSpace: bool) returns (result: string)
    ensures result == UrlDecoded(s, convertPlusToSpace)
  {
    hide ToUtf8, HexRun, DecodedFrom;
    DecodedEnd(s, convertPlusToSpace);
    result := "";
    var i := 0;
    while i < |s|
      invariant 0 <= i <= |s|
      invariant result + DecodedFrom(s, convertPlusToSpace, i) == UrlDecoded(s, convertPlusToSpace)
    {
      ghost var rest := DecodedFrom(s, convertPlusToSpace, i);
      var text, next := [s[i]], i + 1;
      if s[i] == '%' && i + 1 < |s| {
        if s[i + 1] == 'u' {
          var val := FromHexToI(s, i + 2, 4);
          HexRunBound(s, i + 2, 4, 0, 0x10000);
          if val.Some? { text, next := ToUtf8(val.value), i + 6; }
        } else {
          var val := FromHexToI(s, i + 1, 2);
          HexRunBound(s, i + 1, 2, 0, 256);
          if val.Some? { text, next := [val.value as char], i + 3; }
        }
      } else if convertPlusToSpace && s[i] == '+' {
        text := " ";
      }
      Append3(result, text, DecodedFrom(s, convertPlusToSpace, next));
      DecodedStep(s, convertPlusToSpace, i);
      assert rest == text + DecodedFrom(s, convertPlusToSpace, next);
      result := result + text;
      i := next;
    }
  }

  /** Decoding without plus leaves a value alone exactly when it holds no valid escape. */
  lemma {:induction false} DecodeIdentityFrom(s: string, i: nat)
    requires i <= |s|
    ensures |DecodedFrom(s, false, i)| <= |s| - i
    ensures DecodedFrom(s, false, i) == s[i..] <==> forall j :: i <= j < |s| ==> EscapeAt(s, j).None?
    decreases |s| - i
  {
    hide EscapeAt, DecodedFrom;
    if i == |s| {
      DecodedEnd(s, false);
    } else {
      DecodedStep(s, false, i);
      if EscapeAt(s, i).Some? {
        DecodeIdentityFrom(s, i + EscapeAt(s, i).value.size);
      } else {
        DecodeIdentityFrom(s, i + 1);
        SameHead(s, i, DecodedFrom(s, false, i + 1));
      }
    }
  }

  lemma SameHead(s: string, i: nat, rest: string)
    requires i < |s|
    ensures [s[i]] + rest == s[i..] <==> rest == s[i + 1..]
  {
    assert s[i..] == [s[i]] + s[i + 1..];
    assert ([s[i]] + rest)[1..] == rest;
  }

  lemma DecodeIdentity(s: string)
    ensures UrlDecoded(s, false) == s <==> forall j :: 0 <= j < |s| ==> EscapeAt(s, j).None?
  {
    DecodeIdentityFrom(s, 0);
    assert s[0..] == s;
  }

  // ------------------------------------------------------------- header lines

  type Header = (string, string)

  predicate KeepsEscapes(key: string) { EqualIgnoreCase(key, "Location") || EqualIgnoreCase(key, "Referer") }

  /** One header line without its terminator: name, colon, blank-padded value. */
  function ParsedHeader(line: string): Option<Header> {
    var end := DropBlanks(line, |line|);
    var p := IndexOf(line[..end], ':');
    var key := line[..p];
    if !IsFieldName(key) || p == end then None
    else
      var q := SkipBlanks(line[..end], p + 1);
      var val := line[q..end];
      if !IsFieldValue(val) then None
      else Some((key, if KeepsEscapes(key) then val else UrlDecoded(val, false)))
  }

  method ParseHeader(line: string) returns (r: Option<Header>)
    ensures r == ParsedHeader(line)
  {
    hide DropBlanks, SkipBlanks, IndexFrom, IsFieldName, IsFieldValue, UrlDecoded, KeepsEscapes;
    var end := DropBlank(line, |line|);
    var text := line[..end];
    var p := FindByte(text, ':');
    var key := line[..p];
    var named := IsToken(key);
    if !named || p == end { return None; }
    var q := SkipBlank(text, p + 1);
    var val := line[q..end];
    var legal := IsFieldContent(val);
    if !legal { return None; }
    if KeepsEscapes(key) { return Some((key, val)); }
    var decoded := DecodeUrl(val, false);
    return Some((key, decoded));
  }

  lemma {:induction false} WrittenFieldAt(line: string, key: string, val: string, end: nat, q: nat)
    requires IsFieldName(key) && IsFieldValue(val) && |key| < q <= end <= |line|
    requires end == DropBlanks(line, |line|)
    requires line[..|key|] == key && line[|key|] == ':' && line[q..end] == val
    requires q == SkipBlanks(line[..end], |key| + 1)
    ensures ParsedHeader(line) == Some((key, if KeepsEscapes(key) then val else UrlDecoded(val, false)))
  {
    hide UrlDecoded, KeepsEscapes, DropBlanks, SkipBlanks, IsFieldValue;
    var text := line[..end];
    assert text[|key|] == ':';
    forall i | 0 <= i < |key| ensures text[i] != ':' {
      assert text[i] == line[..|key|][i] == key[i];
      assert IsTokenChar(key[i]);
    }
    assert IndexOf(text, ':') == |key|;
  }

  predicate Blanks(s: string) { forall i :: 0 <= i < |s| ==> IsBlank(s[i]) }

  lemma {:induction false} DropPad(s: string, i: nat, j: nat)
    requires 0 < i <= j <= |s| && !IsBlank(s[i - 1]) && forall k :: i <= k < j ==> IsBlank(s[k])
    ensures DropBlanks(s, j) == i
    decreases j
  {
    if i < j { DropPad(s, i, j - 1); }
  }

  lemma {:induction false} SkipPad(s: string, i: nat, j: nat)
    requires i <= j < |s| && !IsBlank(s[j]) && forall k :: i <= k < j ==> IsBlank(s[k])
    ensures SkipBlanks(s, i) == j
    decreases j - i
  {
    if i < j { SkipPad(s, i + 1, j); }
  }

  lemma Slots(a: string, b: string, c: string, d: string)
    ensures var s, i, j := a + b + c + d, |a| + |b|, |a| + |b| + |c|;
            s[..|a|] == a && s[..j] == a + b + c && s[i..j] == c
            && (forall k :: |a| <= k < i ==> s[k] == b[k - |a|]) && forall k :: j <= k < |s| ==> s[k] == d[k - j]
  {
  }

  lemma {:induction false} Bounds(line: string, n: nat, q: nat, end: nat)
    requires n < q < end <= |line| && line[n] == ':' && forall i :: 0 <= i < n ==> line[i] != ':'
    requires forall i :: n < i < q || end <= i < |line| ==> IsBlank(line[i])
    requires !IsBlank(line[q]) && !IsBlank(line[end - 1])
    ensures DropBlanks(line, |line|) == end && SkipBlanks(line[..end], n + 1) == q && IndexOf(line[..end], ':') == n
  {
    hide IndexFrom, DropBlanks, SkipBlanks;
    DropPad(line, end, |line|);
    var text := line[..end];
    assert forall i :: 0 <= i < end ==> text[i] == line[i];
    SkipPad(text, n + 1, q);
  }

  lemma Front(line: string, key: string)
    requires |key| < |line| && line[..|key| + 1] == key + ":"
    ensures line[..|key|] == key && line[|key|] == ':' && forall i :: 0 <= i < |key| ==> line[i] == key[i]
  {
    var start := line[..|key| + 1];
    assert line[..|key|] == start[..|key|];
    assert line[|key|] == start[|key|];
    assert forall i :: 0 <= i < |key| ==> line[i] == start[i];
  }

  lemma Ends(line: string, q: nat, val: string)
    requires val != "" && q + |val| <= |line| && line[q..q + |val|] == val
    ensures line[q] == val[0] && line[q + |val| - 1] == val[|val| - 1]
  {
  }

  /** Where the value stands in a line. */
  lemma {:induction false} ValueFound(key: string, pad: string, val: string, post: string)
    requires ':' !in key && Blanks(pad) && Blanks(post) && val != "" && !IsBlank(val[0]) && !IsBlank(val[|val| - 1])
    ensures var line, q := key + ":" + pad + val + post, |key| + 1 + |pad|;
            var end := q + |val|;
            line[..|key|] == key && line[|key|] == ':' && line[q..end] == val && IndexOf(line[..end], ':') == |key|
            && DropBlanks(line, |line|) == end && SkipBlanks(line[..end], |key| + 1) == q
  {
    hide IndexFrom, DropBlanks, SkipBlanks;
    var line, q := key + ":" + pad + val + post, |key| + 1 + |pad|;
    Slots(key + ":", pad, val, post);
    Front(line, key);
    Ends(line, q, val);
    Bounds(line, |key|, q, q + |val|);
  }

  lemma NoColon(key: string)
    requires IsFieldName(key)
    ensures ':' !in key
  {
  }

  lemma {:induction false} EmptyValue(key: string, pad: string, post: string)
    requires Blanks(pad) && Blanks(post)
    ensures var line, q := key + ":" + pad + "" + post, |key| + 1;
            line[..|key|] == key && line[|key|] == ':' && line[q..q] == ""
            && DropBlanks(line, |line|) == q && SkipBlanks(line[..q], q) == q
  {
    var start := key + ":";
    var line := start + pad + "" + post;
    Slots(start, pad, "", post);
    assert line[..|key|] == line[..|start|][..|key|] == key && line[|key|] == line[..|start|][|key|];
    DropPad(line, |start|, |line|);
  }

  /** A line written with any blanks around its value comes back as its parts; only the values
      of two fields keep their escapes. */
  lemma {:induction false} ParsedPadded(key: string, pad: string, val: string, post: string)
    requires IsFieldName(key) && Blanks(pad) && IsFieldValue(val) && Blanks(post)
    ensures ParsedHeader(key + ":" + pad + val + post)
            == Some((key, if EqualIgnoreCase(key, "Location") || EqualIgnoreCase(key, "Referer") then val
                          else UrlDecoded(val, false)))
  {
    NoColon(key);
    hide ParsedHeader, UrlDecoded, EqualIgnoreCase, IsFieldName, DropBlanks, SkipBlanks, IndexFrom;
    var line, q := key + ":" + pad + val + post, |key| + 1 + |pad|;
    if val == "" {
      EmptyValue(key, pad, post);
      WrittenFieldAt(line, key, val, |key| + 1, |key| + 1);
    } else {
      ValueFound(key, pad, val, post);
      WrittenFieldAt(line, key, val, q + |val|, q);
    }
  }

  /** No name in front of a colon, no field. */
  lemma NoField(text: string)
    requires ':' !in text || !IsFieldName(text[..IndexOf(text, ':')])
    ensures ParsedHeader(text).None?
  {
    var end := DropBlanks(text, |text|);
    var p := IndexOf(text[..end], ':');
    if ':' in text {
      var k := IndexOf(text, ':');
      assert k < end;
      assert text[..end][k] == ':' && forall i :: 0 <= i < k ==> text[..end][i] != ':';
      assert p == k;
    }
  }

  /** Nor is there one if the value between the blanks is not legal. */
  lemma {:induction false} NoValue(key: string, pad: string, val: string, post: string)
    requires IsFieldName(key) && Blanks(pad) && Blanks(post) && val != "" && !IsFieldValue(val)
    requires !IsBlank(val[0]) && !IsBlank(val[|val| - 1])
    ensures ParsedHeader(key + ":" + pad + val + post).None?
  {
    NoColon(key);
    hide UrlDecoded, EqualIgnoreCase, IsFieldValue, DropBlanks, SkipBlanks, IndexFrom;
    ValueFound(key, pad, val, post);
  }

  /** A line written as `name: value` with legal parts comes back as those parts. */
  lemma {:induction false} ParsedHeaderOf(key: string, val: string)
    requires IsFieldName(key) && IsFieldValue(val)
    ensures ParsedHeader(key + ": " + val) ==
            Some((key, if KeepsEscapes(key) then val else UrlDecoded(val, false)))
  {
    hide ParsedHeader, UrlDecoded, EqualIgnoreCase, IsFieldName, IsFieldValue;
    ParsedPadded(key, " ", val, "");
    assert key + ":" + " " + val + "" == key + ": " + val;
  }
}
