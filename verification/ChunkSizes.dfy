/** Chunk sizes in hexadecimal: how they are written, and the C library's way to read them. */
module ChunkSizes {
  import opened Bytes
  import opened Fields

  const ULONG_MAX := 0xFFFF_FFFF_FFFF_FFFF

  // ------------------------------------------------------------- hexadecimal sizes

  function HexChar(d: nat): char
    requires d < 16
  {
    "0123456789abcdef"[d]
  }

  /** Lower-case hexadecimal without leading zeros. */
  function Hex(n: nat): (r: string)
    ensures r != ""
  {
    if n < 16 then [HexChar(n)] else Hex(n / 16) + [HexChar(n % 16)]
  }

  lemma HexStep(n: nat)
    ensures Hex(n) == (if n < 16 then "" else Hex(n / 16)) + [HexChar(n % 16)]
  {
  }

  method FromIToHex(n0: nat) returns (ret: string)
    ensures ret == Hex(n0)
  {
    hide HexChar, Hex;
    HexStep(n0);
    ret := [HexChar(n0 % 16)];
    var n := n0 / 16;
    while n > 0
      invariant (if n > 0 then Hex(n) + ret else ret) == Hex(n0)
    {
      HexStep(n);
      if n >= 16 { Append3(Hex(n / 16), [HexChar(n % 16)], ret); }
      ret := [HexChar(n % 16)] + ret;
      n := n / 16;
    }
  }

  // --------------------------------------------------- the C library's strtoul, base 16

  predicate IsSpace(c: char) { c == ' ' || '\t' <= c <= '\r' }

  function SkipSpaces(s: string, i: nat): (r: nat)
    requires i <= |s|
    ensures i <= r <= |s|
    decreases |s| - i
  {
    if i < |s| && IsSpace(s[i]) then SkipSpaces(s, i + 1) else i
  }

  /** The value of the hexadecimal digits at `i`, after `acc`. */
  function DigitsValue(s: string, i: nat, acc: nat): nat
    requires i <= |s|
    decreases |s| - i
  {
    if i < |s| && HexDigit(s[i]).Some? then DigitsValue(s, i + 1, acc * 16 + HexDigit(s[i]).value) else acc
  }

  /** None when no digit was found; too large a number gives the largest value. */
  function StrToUl16(s: string): Option<nat> {
    var i := SkipSpaces(s, 0);
    var negative := i < |s| && s[i] == '-';
    var j := if i < |s| && (s[i] == '-' || s[i] == '+') then i + 1 else i;
    var k := if j + 2 < |s| && s[j] == '0' && (s[j + 1] == 'x' || s[j + 1] == 'X') && HexDigit(s[j + 2]).Some?
             then j + 2 else j;
    if k >= |s| || HexDigit(s[k]).None? then None
    else
      var v := DigitsValue(s, k, 0);
      if v > ULONG_MAX then Some(ULONG_MAX)
      else if negative && v > 0 then Some(ULONG_MAX + 1 - v)
      else Some(v)
  }

  lemma HexCharValue(d: nat)
    requires d < 16
    ensures HexDigit(HexChar(d)) == Some(d)
  {
  }

  lemma {:induction false} HexDigitsOnly(n: nat)
    ensures forall i :: 0 <= i < |Hex(n)| ==> HexDigit(Hex(n)[i]).Some?
  {
    HexCharValue(n % 16);
    if n >= 16 { HexDigitsOnly(n / 16); }
  }

  /** Reading the digits of `n` from the front leaves the reader after them with `n`. */
  lemma {:induction false} HexValue(n: nat, tail: string)
    ensures DigitsValue(Hex(n) + tail, 0, 0) == DigitsValue(Hex(n) + tail, |Hex(n)|, n)
  {
    var c := HexChar(n % 16);
    HexCharValue(n % 16);
    hide HexChar, HexDigit;
    var s := Hex(n) + tail;
    if n >= 16 {
      var h := Hex(n / 16);
      Append3(h, [c], tail);
      HexValue(n / 16, [c] + tail);
      assert s[|h|] == c;
    } else {
      assert s[0] == c;
    }
  }

  lemma {:induction false} HexLength(n: nat, k: nat)
    requires k > 0 && n < Bound16(k)
    ensures |Hex(n)| <= k
  {
    if n >= 16 { HexLength(n / 16, k - 1); }
  }

  function Bound16(k: nat): nat { if k == 0 then 1 else 16 * Bound16(k - 1) }

  /** A size line reads back as the size. */
  lemma {:induction false} SizeRead(n: nat)
    requires n < ULONG_MAX
    ensures StrToUl16(CStr(Hex(n) + CRLF)) == Some(n)
    ensures '\r' !in Hex(n) && |Hex(n)| <= 16
  {
    hide Hex, HexDigit, CStr, DigitsValue, StrToUl16;
    HexDigitsOnly(n);
    SizeLine(Hex(n));
    HexValue(n, CRLF);
    LineEnds(Hex(n), n);
    assert Bound16(16) == 0x1_0000_0000_0000_0000 by { Bound16At16(); }
    HexLength(n, 16);
    StartsWithDigit(Hex(n) + CRLF, n);
  }

  lemma SizeLine(h: string)
    requires h != "" && forall i :: 0 <= i < |h| ==> HexDigit(h[i]).Some?
    ensures var s := h + CRLF;
            CStr(s) == s && '\r' !in h && HexDigit(s[0]).Some? && s[1] != 'x' && s[1] != 'X'
  {
    var s := h + CRLF;
    assert forall i :: 0 <= i < |h| ==> s[i] == h[i];
    assert s[|h|] == '\r' && s[|h| + 1] == '\n';
    assert IndexFrom(s, '\0', 0) == |s|;
  }

  lemma LineEnds(h: string, n: nat)
    ensures DigitsValue(h + CRLF, |h|, n) == n
  {
  }

  lemma {:induction false} StartsWithDigit(s: string, n: nat)
    requires |s| >= 2 && HexDigit(s[0]).Some? && s[1] != 'x' && s[1] != 'X' && n <= ULONG_MAX
    requires DigitsValue(s, 0, 0) == n
    ensures StrToUl16(s) == Some(n)
  {
    hide DigitsValue;
  }

  lemma Bound16At16()
    ensures Bound16(16) == 0x1_0000_0000_0000_0000
  {
    assert Bound16(4) == 0x1_0000;
    assert Bound16(8) == 0x1_0000_0000;
    assert Bound16(12) == 0x1_0000_0000_0000;
  }
}
