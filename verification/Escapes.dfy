/** What percent decoding makes of each kind of escape, and of text that is none. */
module Escapes {
  import opened Bytes
  import opened Fields
  import Query

  // -------------------------------------------------------------------- UTF-8

  /** The code point that one, two or three bytes stand for (section 3 of RFC 3629). */
  function Utf8Value(u: string): Option<int> {
    if |u| == 1 && u[0] < '\U{80}' then Some(u[0] as int)
    else if |u| == 2 && '\U{C2}' <= u[0] < '\U{E0}' && '\U{80}' <= u[1] < '\U{C0}' then
      Some((u[0] as int - 0xC0) * 64 + (u[1] as int - 0x80))
    else if |u| == 3 && '\U{E0}' <= u[0] < '\U{F0}' && '\U{80}' <= u[1] < '\U{C0}' && '\U{80}' <= u[2] < '\U{C0}' then
      Some((u[0] as int - 0xE0) * 4096 + (u[1] as int - 0x80) * 64 + (u[2] as int - 0x80))
    else None
  }

  /** Every code point but a surrogate is written as the bytes that stand for it. */
  lemma Utf8RoundTrip(code: nat)
    requires code < 0x10000
    ensures if 0xD800 <= code < 0xE000 then ToUtf8(code) == "" else Utf8Value(ToUtf8(code)) == Some(code)
  {
  }

  // ------------------------------------------------------------------ single escapes

  lemma {:induction false} DecodeBehind(pre: string, rest: string, plus: bool)
    ensures DecodedFrom(pre + rest, plus, |pre|) == UrlDecoded(rest, plus)
  {
    Query.DecodeShift(pre, rest, plus, 0);
  }

  /** Two hexadecimal digits, in either case, stand for a byte. */
  lemma {:induction false} ByteEscape(h: char, l: char, rest: string, plus: bool)
    requires HexDigit(h).Some? && HexDigit(l).Some?
    ensures UrlDecoded(['%', h, l] + rest, plus)
            == [(HexDigit(h).value * 16 + HexDigit(l).value) as char] + UrlDecoded(rest, plus)
  {
    var s := ['%', h, l] + rest;
    DecodeBehind(['%', h, l], rest, plus);
    assert s[1] == h != 'u' && s[2] == l;
    assert HexRun(s, 3, 0, HexDigit(h).value * 16 + HexDigit(l).value).Some?;
    assert HexRun(s, 2, 1, HexDigit(h).value) == HexRun(s, 3, 0, HexDigit(h).value * 16 + HexDigit(l).value);
    assert HexRun(s, 1, 2, 0) == HexRun(s, 2, 1, HexDigit(h).value);
  }

  /** Four of them behind a `u` stand for a code point. */
  lemma {:induction false} CodeEscape(a: char, b: char, c: char, d: char, rest: string, plus: bool)
    requires HexDigit(a).Some? && HexDigit(b).Some? && HexDigit(c).Some? && HexDigit(d).Some?
    ensures var high, low := HexDigit(a).value * 16 + HexDigit(b).value, HexDigit(c).value * 16 + HexDigit(d).value;
            var code := high * 256 + low;
            UrlDecoded(['%', 'u', a, b, c, d] + rest, plus) == ToUtf8(code) + UrlDecoded(rest, plus)
  {
    hide ToUtf8, HexDigit;
    var s := ['%', 'u', a, b, c, d] + rest;
    DecodeBehind(['%', 'u', a, b, c, d], rest, plus);
    var v1 := HexDigit(a).value;
    var v2 := v1 * 16 + HexDigit(b).value;
    var v3 := v2 * 16 + HexDigit(c).value;
    var v4 := v3 * 16 + HexDigit(d).value;
    assert s[2] == a && s[3] == b && s[4] == c && s[5] == d;
    assert HexRun(s, 6, 0, v4) == Some(v4);
    assert HexRun(s, 5, 1, v3) == Some(v4);
    assert HexRun(s, 4, 2, v2) == Some(v4);
    assert HexRun(s, 3, 3, v1) == Some(v4);
    assert HexRun(s, 2, 4, 0) == Some(v4);
  }

  /** Every other byte stands for itself, but a plus sign may stand for a blank. */
  lemma {:induction false} PlainByte(c: char, rest: string, plus: bool)
    requires c != '%'
    ensures UrlDecoded([c] + rest, plus) == [if plus && c == '+' then ' ' else c] + UrlDecoded(rest, plus)
  {
    DecodeBehind([c], rest, plus);
    assert EscapeAt([c] + rest, 0) == None;
  }

  /** A percent sign without enough digits behind it is kept. */
  lemma {:induction false} NoEscape(rest: string, plus: bool)
    requires |rest| < 2 || HexDigit(rest[0]).None? || HexDigit(rest[1]).None?
    requires rest != "" && rest[0] == 'u' ==>
               |rest| < 5 || exists i :: 1 <= i < 5 && HexDigit(rest[i]).None?
    ensures UrlDecoded("%" + rest, plus) == "%" + UrlDecoded(rest, plus)
  {
    var s := "%" + rest;
    DecodeBehind("%", rest, plus);
    assert forall i :: 0 <= i < |rest| ==> s[i + 1] == rest[i];
    if rest != "" && rest[0] == 'u' {
      NoRun(s, 2, 4, 0);
    } else {
      NoRun(s, 1, 2, 0);
    }
    assert EscapeAt(s, 0) == None;
  }

  lemma {:induction false} NoRun(s: string, i: nat, cnt: nat, acc: nat)
    requires i <= |s| && (i + cnt > |s| || exists k :: i <= k < i + cnt && HexDigit(s[k]).None?)
    ensures HexRun(s, i, cnt, acc) == None
    decreases cnt
  {
    if cnt > 0 && i < |s| && HexDigit(s[i]).Some? { NoRun(s, i + 1, cnt - 1, acc * 16 + HexDigit(s[i]).value); }
  }
}
