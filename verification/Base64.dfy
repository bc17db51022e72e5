/** Base64 (section 4 of RFC 4648): the encoder with its 32-bit accumulator. */
module Base64 {
  import opened Bytes

  type Octet = c: char | c < '\U{100}' witness 'a'

  // ------------------------------------------------------------- specification

  function Char64(d: nat): char
    requires d < 64
  {
    if d < 26 then ('A' as int + d) as char
    else if d < 52 then ('a' as int + d - 26) as char
    else if d < 62 then ('0' as int + d - 52) as char
    else if d == 62 then '+' else '/'
  }

  /** The alphabet as the encoder's table: capitals, small letters, digits, plus and slash. */
  const LOOKUP: string := seq(64, d requires 0 <= d < 64 => Char64(d))

  function Value64(c: char): (v: Option<nat>)
    ensures v.Some? ==> v.value < 64 && Char64(v.value) == c && c != '='
  {
    if 'A' <= c <= 'Z' then Some(c as int - 'A' as int)
    else if 'a' <= c <= 'z' then Some(c as int - 'a' as int + 26)
    else if '0' <= c <= '9' then Some(c as int - '0' as int + 52)
    else if c == '+' then Some(62)
    else if c == '/' then Some(63)
    else None
  }

  /** The four sextets of three octets. */
  function First(a: Octet): nat { a as nat / 4 }
  function Second(a: Octet, b: nat): nat { a as nat % 4 * 16 + b / 16 }
  function Third(b: Octet, c: nat): nat { b as nat % 16 * 4 + c / 64 }
  function Fourth(c: Octet): nat { c as nat % 64 }

  function Full(a: Octet, b: Octet, c: Octet): (r: string)
    ensures |r| == 4
  {
    [Char64(First(a)), Char64(Second(a, b as nat)), Char64(Third(b, c as nat)), Char64(Fourth(c))]
  }

  /** One or two octets left over. */
  function Last(s: seq<Octet>): (r: string)
    requires 0 < |s| < 3
    ensures |r| == 4
  {
    if |s| == 1 then [Char64(First(s[0])), Char64(Second(s[0], 0)), '=', '=']
    else [Char64(First(s[0])), Char64(Second(s[0], s[1] as nat)), Char64(Third(s[1], 0)), '=']
  }

  function Encoded(s: seq<Octet>): string {
    if s == [] then "" else if |s| < 3 then Last(s) else Full(s[0], s[1], s[2]) + Encoded(s[3..])
  }

  /** A strict decoder: padding only at the end, and unused bits zero. */
  function Decoded(t: string): Option<seq<Octet>> {
    if t == "" then Some([])
    else if |t| < 4 then None
    else match (Value64(t[0]), Value64(t[1]))
      case (Some(a), Some(b)) =>
        var x := (a * 4 + b / 16) as char;
        if t[2] == '=' then (if t[3] == '=' && |t| == 4 && b % 16 == 0 then Some([x]) else None)
        else (match Value64(t[2])
          case None => None
          case Some(c) =>
            var y := (b % 16 * 16 + c / 4) as char;
            if t[3] == '=' then (if |t| == 4 && c % 4 == 0 then Some([x, y]) else None)
            else (match (Value64(t[3]), Decoded(t[4..]))
              case (Some(d), Some(rest)) => Some([x, y, (c % 4 * 64 + d) as char] + rest)
              case _ => None))
      case _ => None
  }

  lemma {:induction false} EncodedLength(s: seq<Octet>)
    ensures |Encoded(s)| == 4 * ((|s| + 2) / 3) && |Encoded(s)| % 4 == 0
  {
    hide Full, Last;
    if |s| > 2 { EncodedLength(s[3..]); }
  }

  lemma CharValue(d: nat)
    requires d < 64
    ensures Value64(Char64(d)) == Some(d)
  {
  }

  /** Sextets of octets go back into the same octets. */
  lemma Octets(a: Octet, b: Octet, c: Octet)
    ensures var (s0, s1, s2, s3) := (First(a), Second(a, b as nat), Third(b, c as nat), Fourth(c));
            s0 < 64 && s1 < 64 && s2 < 64 && s3 < 64
            && s0 * 4 + s1 / 16 == a as nat && s1 % 16 * 16 + s2 / 4 == b as nat && s2 % 4 * 64 + s3 == c as nat
  {
  }

  lemma {:induction false} FullDecodes(a: Octet, b: Octet, c: Octet, rest: string)
    ensures Decoded(Full(a, b, c) + rest) ==
            if Decoded(rest).Some? then Some([a, b, c] + Decoded(rest).value) else None
  {
    hide Char64, Value64, First, Second, Third, Fourth;
    Octets(a, b, c);
    CharValue(First(a));
    CharValue(Second(a, b as nat));
    CharValue(Third(b, c as nat));
    CharValue(Fourth(c));
    var t := Full(a, b, c) + rest;
    assert t[4..] == rest;
    assert t[0] == Char64(First(a)) && t[1] == Char64(Second(a, b as nat));
    assert t[2] == Char64(Third(b, c as nat)) && t[3] == Char64(Fourth(c));
  }

  lemma {:induction false} LastDecodes(s: seq<Octet>)
    requires 0 < |s| < 3
    ensures Decoded(Last(s)) == Some(s)
  {
    hide Char64, Value64;
    CharValue(First(s[0]));
    CharValue(Second(s[0], if |s| > 1 then s[1] as nat else 0));
    if |s| > 1 {
      CharValue(Third(s[1], 0));
      assert s == [s[0], s[1]];
    } else {
      assert s == [s[0]];
    }
  }

  lemma {:induction false} DecodeEncoded(s: seq<Octet>)
    ensures Decoded(Encoded(s)) == Some(s)
  {
    hide Full, Last, Decoded;
    if s == [] {
      NothingDecodes();
    } else if |s| < 3 {
      LastDecodes(s);
    } else {
      FullDecodes(s[0], s[1], s[2], Encoded(s[3..]));
      DecodeEncoded(s[3..]);
      assert s == [s[0], s[1], s[2]] + s[3..];
    }
  }

  lemma NothingDecodes()
    ensures Decoded("") == Some([])
  {
  }

  /** Octets put together from sextets come apart into the same sextets. */
  lemma Sextets(a: nat, b: nat, c: nat, d: nat)
    requires a < 64 && b < 64 && c < 64 && d < 64
    ensures var x, y, z := (a * 4 + b / 16) as char, (b % 16 * 16 + c / 4) as char, (c % 4 * 64 + d) as char;
            First(x) == a && Second(x, y as nat) == b && Third(y, z as nat) == c && Fourth(z) == d
            && (b % 16 == 0 ==> Second(x, 0) == b) && (c % 4 == 0 ==> Third(y, 0) == c)
  {
  }

  function ValueOr0(c: char): nat { if Value64(c).Some? then Value64(c).value else 0 }

  lemma {:induction false} EncodeDecoded(t: string)
    requires Decoded(t).Some?
    ensures Encoded(Decoded(t).value) == t
  {
    hide Char64, Value64, First, Second, Third, Fourth;
    if t != "" {
      var s := Decoded(t).value;
      Sextets(ValueOr0(t[0]), ValueOr0(t[1]), ValueOr0(t[2]), ValueOr0(t[3]));
      if t[2] != '=' && t[3] != '=' {
        EncodeDecoded(t[4..]);
        assert s[3..] == Decoded(t[4..]).value;
        assert t == [t[0], t[1], t[2], t[3]] + t[4..];
      } else {
        assert t == [t[0], t[1], t[2], t[3]];
      }
    }
  }

  /** The encoder's output is the only text that decodes to its input. */
  lemma Base64RoundTrip(s: seq<Octet>, t: string)
    ensures Decoded(t) == Some(s) <==> t == Encoded(s)
  {
    DecodeEncoded(s);
    if Decoded(t) == Some(s) { EncodeDecoded(t); }
  }

  // ------------------------------------------------------------------ the encoder

  const TWO_32 := 0x1_0000_0000

  /** The value a 32-bit signed integer keeps of `x`. */
  function Wrap32(x: int): (r: int)
    ensures -0x8000_0000 <= r < 0x8000_0000
  {
    (x + 0x8000_0000) % TWO_32 - 0x8000_0000
  }

  lemma Wrap32Low(x: int)
    ensures exists t :: Wrap32(x) == x + TWO_32 * t
  {
    var q := (x + 0x8000_0000) / TWO_32;
    assert Wrap32(x) == x + TWO_32 * (-q);
  }

  /** `(val >> shift) & 0x3F`, with the arithmetic shift of a signed integer. */
  function Sextet(val: int, shift: nat): (d: nat)
    ensures d < 64
  {
    val / Pow2(shift) % 64
  }

  lemma SextetIs(val: int)
    ensures Sextet(val, 0) == val % 64 && Sextet(val, 2) == val / 4 % 64
    ensures Sextet(val, 4) == val / 16 % 64 && Sextet(val, 6) == val / 64 % 64
  {
    assert Pow2(4) == 2 * (2 * Pow2(2)) && Pow2(6) == 2 * (2 * Pow2(4));
  }

  lemma Mod256(x: int, c: nat)
    requires c < 256
    ensures (256 * x + c) % 256 == c
  {
  }

  lemma Mod64(x: int, c: nat)
    requires c < 64
    ensures (64 * x + c) % 64 == c
  {
  }

  lemma Div64(x: int, c: nat)
    requires c < 64
    ensures (64 * x + c) / 64 == x
  {
  }

  lemma Shifted0(k: int, p: nat, c: nat)
    requires p < 256 && c < 256
    ensures (65536 * k + 256 * p + c) % 256 == c && (65536 * k + 256 * p + c) % 64 == c % 64
  {
    Mod256(256 * k + p, c);
    Mod64(1024 * k + 4 * p + c / 64, c % 64);
  }

  lemma Shifted2(k: int, p: nat, c: nat)
    requires p < 256 && c < 256
    ensures (65536 * k + 256 * p + c) / 4 % 64 == c / 4
  {
    assert (65536 * k + 256 * p + c) / 4 == 64 * (256 * k + p) + c / 4;
  }

  lemma Shifted4(k: int, p: nat, c: nat)
    requires p < 256 && c < 256
    ensures (65536 * k + 256 * p + c) / 16 % 64 == p % 4 * 16 + c / 16
  {
    assert (65536 * k + 256 * p + c) / 16 == 64 * (64 * k + p / 4) + (p % 4 * 16 + c / 16);
  }

  lemma Shifted6(k: int, p: nat, c: nat)
    requires p < 256 && c < 256
    ensures (65536 * k + 256 * p + c) / 64 % 64 == p % 16 * 4 + c / 64
  {
    Div64(1024 * k + 4 * p + c / 64, c % 64);
    Mod64(16 * k + p / 16, p % 16 * 4 + c / 64);
  }

  lemma {:induction false} WrapForm(val: int, p: Octet, c: nat)
    requires val % 256 == p as int && c < 256
    ensures exists k :: Wrap32(val * 256 + c) == 65536 * k + 256 * p as int + c
  {
    hide Wrap32;
    Wrap32Low(val * 256 + c);
    var t :| Wrap32(val * 256 + c) == val * 256 + c + TWO_32 * t;
    var k := val / 256 + 65536 * t;
    assert Wrap32(val * 256 + c) == 65536 * k + 256 * p as int + c;
  }

  /** What the low bits of the accumulator give, however much has been lost above them. */
  lemma {:induction false} SextetsOf(val: int, p: Octet, c: Octet)
    requires val % 256 == p as int
    ensures var next := Wrap32(val * 256 + c as int);
            next % 256 == c as int && Sextet(next, 2) == First(c) && Sextet(next, 4) == Second(p, c as nat)
            && Sextet(next, 6) == Third(p, c as nat) && Sextet(next, 0) == Fourth(c)
  {
    hide Wrap32, Sextet;
    SextetIs(Wrap32(val * 256 + c as int));
    WrapForm(val, p, c as nat);
    var k :| Wrap32(val * 256 + c as int) == 65536 * k + 256 * p as int + c as int;
    Shifted0(k, p as nat, c as nat);
    Shifted2(k, p as nat, c as nat);
    Shifted4(k, p as nat, c as nat);
    Shifted6(k, p as nat, c as nat);
  }

  /** The characters that are out when the octets `g` of a started group have been read. */
  function Started(g: seq<Octet>): string
    requires |g| < 3
  {
    if g == [] then ""
    else if |g| == 1 then [Char64(First(g[0]))]
    else [Char64(First(g[0])), Char64(Second(g[0], g[1] as nat))]
  }

  lemma {:induction false} GroupEncoded(g: seq<Octet>, c: Octet, rest: seq<Octet>)
    requires |g| == 2
    ensures Encoded(g + ([c] + rest)) == Full(g[0], g[1], c) + Encoded(rest)
  {
    assert (g + ([c] + rest))[3..] == rest;
  }

  /** One more octet: the loop over six bits at a time puts out one character or two. */
  method Drain(val: int, valb0: int, out0: string) returns (valb: int, out: string)
    requires valb0 in {2, 4, 6}
    ensures valb == if valb0 == 6 then -6 else valb0 - 6
    ensures out == out0 + [Char64(Sextet(val, valb0))] + if valb0 == 6 then [Char64(Sextet(val, 0))] else []
  {
    valb, out := valb0, out0;
    while valb >= 0
      invariant valb == valb0 || valb == valb0 - 6 || (valb0 == 6 && valb == -6)
      invariant valb == valb0 ==> out == out0
      invariant valb == valb0 - 6 ==> out == out0 + [Char64(Sextet(val, valb0))]
      invariant valb0 == 6 && valb == -6 ==> out == out0 + [Char64(Sextet(val, 6))] + [Char64(Sextet(val, 0))]
    {
      out := out + [LOOKUP[Sextet(val, valb)]];
      valb := valb - 6;
    }
  }

  /** Octets before `i`: whole groups are in `done`, the rest wait in `g`. */
  predicate Grouped(s: seq<Octet>, i: nat, g: seq<Octet>, done: string)
    requires i <= |s|
  {
    |g| == i % 3 && |done| % 4 == 0 && done + Encoded(g + s[i..]) == Encoded(s)
  }

  /** What is put out when `c` follows the started group `g`. */
  function Emitted(g: seq<Octet>, c: Octet): string
    requires |g| < 3
  {
    if g == [] then [Char64(First(c))]
    else if |g| == 1 then [Char64(Second(g[0], c as nat))]
    else [Char64(Third(g[1], c as nat))] + [Char64(Fourth(c))]
  }

  lemma {:induction false} StartedNext(g: seq<Octet>, c: Octet)
    requires |g| < 2
    ensures Started(g + [c]) == Started(g) + Emitted(g, c)
  {
    hide Char64, First, Second;
  }

  lemma {:induction false} GroupEmitted(g: seq<Octet>, c: Octet)
    requires |g| == 2
    ensures Started(g) + Emitted(g, c) == Full(g[0], g[1], c)
  {
    hide Char64, First, Second, Third, Fourth;
  }

  lemma {:induction false} GroupContinues(s: seq<Octet>, i: nat, g: seq<Octet>, done: string)
    requires i < |s| && Grouped(s, i, g, done) && |g| < 2
    ensures Grouped(s, i + 1, g + [s[i]], done)
  {
    hide Encoded;
    var rest := s[i + 1..];
    assert s[i..] == [s[i]] + rest;
    Append3(g, [s[i]], rest);
    assert g + s[i..] == (g + [s[i]]) + rest;
  }

  lemma {:induction false} GroupCloses(s: seq<Octet>, i: nat, g: seq<Octet>, done: string)
    requires i < |s| && Grouped(s, i, g, done) && |g| == 2
    ensures Grouped(s, i + 1, [], done + Full(g[0], g[1], s[i]))
  {
    hide Encoded, Full;
    var rest := s[i + 1..];
    assert s[i..] == [s[i]] + rest;
    assert [] + rest == rest;
    GroupEncoded(g, s[i], rest);
    Append3(done, Full(g[0], g[1], s[i]), Encoded(rest));
  }

  lemma {:induction false} NextOctet(s: seq<Octet>, i: nat, g: seq<Octet>, done: string)
    returns (g': seq<Octet>, done': string)
    requires i < |s| && Grouped(s, i, g, done)
    ensures Grouped(s, i + 1, g', done') && done' + Started(g') == done + Started(g) + Emitted(g, s[i])
    ensures g' == if |g| == 2 then [] else g + [s[i]]
  {
    hide Started, Emitted, Full;
    Append3(done, Started(g), Emitted(g, s[i]));
    if |g| < 2 {
      g', done' := g + [s[i]], done;
      GroupContinues(s, i, g, done);
      StartedNext(g, s[i]);
    } else {
      g', done' := [], done + Full(g[0], g[1], s[i]);
      GroupCloses(s, i, g, done);
      GroupEmitted(g, s[i]);
      assert Started([]) == "" by { NothingStarted(); }
      assert done' + "" == done';
    }
  }

  lemma NothingStarted()
    ensures Started([]) == ""
  {
  }

  function Padding(n: nat): (r: string)
    ensures |r| == n
  {
    if n == 0 then "" else "=" + Padding(n - 1)
  }

  lemma {:induction false} LastPadded(g: seq<Octet>)
    requires 0 < |g| < 3
    ensures Encoded(g) == Started(g)
                          + [Char64(if |g| == 1 then Second(g[0], 0) else Third(g[1], 0))] + Padding(3 - |g|)
  {
    hide Char64, First, Second, Third;
    assert Padding(1) == "=" + "" && Padding(2) == "=" + Padding(1);
  }

  method Base64Encode(s: seq<Octet>) returns (out: string)
    ensures out == Encoded(s)
  {
    hide Char64, Sextet, Wrap32, First, Second, Third, Fourth, Grouped, Encoded;
    out := "";
    var val, valb := 0, -6;
    ghost var g, done := [], "";
    assert Grouped(s, 0, [], "") by { StartGrouped(s); }
    for i := 0 to |s|
      invariant |g| < 3 && valb == 2 * |g| - 6
      invariant g != [] ==> val % 256 == g[|g| - 1] as int
      invariant Grouped(s, i, g, done) && out == done + Started(g)
    {
      var c := s[i];
      SextetsOf(val, if g == [] then (val % 256) as char else g[|g| - 1], c);
      val := Wrap32(val * 256 + c as int);
      valb, out := Drain(val, valb + 8, out);
      g, done := NextOctet(s, i, g, done);
    }
    EndGrouped(s, g, done);
    if valb > -6 {
      SextetsOf(val, g[|g| - 1], '\0');
      LastPadded(g);
      ghost var x := [Char64(Sextet(Wrap32(val * 256), valb + 8))];
      Append3(done, Started(g) + x, Padding(3 - |g|));
      Append3(done, Started(g), x);
      out := out + [LOOKUP[Sextet(Wrap32(val * 256), valb + 8)]];
    }
    ghost var n: nat := if g == [] then 0 else 3 - |g|;
    while |out| % 4 != 0
      invariant n < 3 && out + Padding(n) == Encoded(s)
      decreases n
    {
      Append3(out, "=", Padding(n - 1));
      out := out + "=";
      n := n - 1;
    }
  }

  lemma StartGrouped(s: seq<Octet>)
    ensures Grouped(s, 0, [], "")
  {
    assert [] + s[0..] == s;
    assert "" + Encoded(s) == Encoded(s);
  }

  lemma {:induction false} EndGrouped(s: seq<Octet>, g: seq<Octet>, done: string)
    requires Grouped(s, |s|, g, done)
    ensures done + Encoded(g) == Encoded(s) && |Encoded(s)| % 4 == 0 && |g| < 3 && (g == [] ==> Encoded(s) == done)
  {
    hide Encoded;
    assert g + s[|s|..] == g;
    assert Encoded([]) == "" by { EncodedNothing(); }
    EncodedLength(s);
  }

  lemma EncodedNothing()
    ensures Encoded([]) == ""
  {
  }
}
