/** The Range request header (section 14.1.2 of RFC 9110): writing and parsing it. */
module RangeHeader {
  import opened Bytes
  import opened Decimals

  /** First and last position; -1 stands for an absent one. */
  type Range = (int, int)

  const UNIT := "bytes="

  // ------------------------------------------------------------------- writing

  function RangeText(r: Range): string {
    (if r.0 == -1 then "" else ToString(r.0)) + "-" + (if r.1 == -1 then "" else ToString(r.1))
  }

  function ListText(ranges: seq<Range>, n: nat): string
    requires n <= |ranges|
    decreases |ranges| - n
  {
    if n == |ranges| then "" else (if n == 0 then "" else ", ") + RangeText(ranges[n]) + ListText(ranges, n + 1)
  }

  method MakeRangeHeader(ranges: seq<Range>) returns (field: string)
    ensures field == UNIT + ListText(ranges, 0)
  {
    hide Dec, ToString, RangeText;
    field := UNIT;
    ghost var rest := ListText(ranges, 0);
    for n := 0 to |ranges|
      invariant rest == ListText(ranges, n) && field + rest == UNIT + ListText(ranges, 0)
    {
      var text := if n != 0 then ", " else "";
      if ranges[n].0 != -1 { text := text + ToString(ranges[n].0); }
      text := text + "-";
      if ranges[n].1 != -1 { text := text + ToString(ranges[n].1); }
      rest := ListText(ranges, n + 1);
      WrittenPiece(ranges, n, text);
      Append3(field, text, rest);
      field := field + text;
    }
  }

  lemma {:induction false} WrittenPiece(ranges: seq<Range>, n: nat, text: string)
    requires n < |ranges|
    requires text == (if n != 0 then ", " else "") + (if ranges[n].0 != -1 then ToString(ranges[n].0) else "")
                     + "-" + (if ranges[n].1 != -1 then ToString(ranges[n].1) else "")
    ensures ListText(ranges, n) == text + ListText(ranges, n + 1)
  {
    hide ToString;
    assert (if n == 0 then "" else ", ") + RangeText(ranges[n]) == text;
  }

  // ------------------------------------------------------------------- parsing

  /** One position: absent, or a number that fits; the library throws on a larger one. */
  function Position(s: string): Option<int>
    requires AllDigits(s)
  {
    var v: int := if s == "" then -1 else ValueOf(s);
    if v > SSIZE_MAX then None else Some(v)
  }

  function ParsedRange(piece: string): Option<Range> {
    var k := IndexOf(piece, '-');
    if k == |piece| then None
    else
      var lhs, rhs := piece[..k], piece[k + 1..];
      if !AllDigits(lhs) || !AllDigits(rhs) then None
      else match (Position(lhs), Position(rhs))
        case (Some(first), Some(last)) =>
          if (first == -1 && last == -1) || (first != -1 && last != -1 && first > last) then None
          else Some((first, last))
        case _ => None
  }

  function ParsedList(pieces: seq<string>, n: nat): Option<seq<Range>>
    requires n <= |pieces|
    decreases |pieces| - n
  {
    if n == |pieces| then Some([])
    else match (ParsedRange(pieces[n]), ParsedList(pieces, n + 1))
      case (Some(r), Some(rs)) => Some([r] + rs)
      case _ => None
  }

  function ParsedHeader(s: string): Option<seq<Range>> {
    if |s| > 7 && s[..6] == UNIT then
      match ParsedList(Pieces(s[6..], ','), 0)
      case Some(ranges) => if ranges == [] then None else Some(ranges)
      case None => None
    else None
  }

  method ParseRange(piece: string) returns (r: Option<Range>)
    ensures r == ParsedRange(piece)
  {
    var k := FindByte(piece, '-');
    if k == |piece| { return None; }
    var lhs, rhs := piece[..k], piece[k + 1..];
    if !AllDigits(lhs) || !AllDigits(rhs) { return None; }
    var first, last := Position(lhs), Position(rhs);
    if first.None? || last.None? { return None; }
    if (first.value == -1 && last.value == -1)
       || (first.value != -1 && last.value != -1 && first.value > last.value) { return None; }
    return Some((first.value, last.value));
  }

  /** One bad piece, wherever it is, makes the whole header invalid. */
  method ParseRangeHeader(s: string) returns (ok: bool, ranges: seq<Range>)
    ensures ok == ParsedHeader(s).Some? && (ok ==> ranges == ParsedHeader(s).value)
  {
    ranges := [];
    if !(|s| > 7 && s[..6] == UNIT) { return false, ranges; }
    var allValid := true;
    var pieces := Split(s[6..], ',');
    ghost var rest := ParsedList(pieces, 0);
    for n := 0 to |pieces|
      invariant rest == ParsedList(pieces, n)
      invariant !allValid ==> ParsedList(pieces, 0).None?
      invariant allValid ==> ParsedList(pieces, 0).Some? == rest.Some?
      invariant allValid && rest.Some? ==> ParsedList(pieces, 0).value == ranges + rest.value
    {
      rest := ParsedList(pieces, n + 1);
      if allValid {
        var r := ParseRange(pieces[n]);
        if r.None? { allValid := false; } else {
          if rest.Some? { Append3(ranges, [r.value], rest.value); }
          ranges := ranges + [r.value];
        }
      }
    }
    ok := allValid && ranges != [];
  }

  // ----------------------------------------------------------------- round trip

  /** Open, suffix, or bounded in order. */
  predicate Valid(r: Range) {
    (r.0 >= 0 && r.1 == -1) || (r.0 == -1 && r.1 >= 0) || 0 <= r.0 <= r.1
  }

  predicate FitsSsize(r: Range) { -SSIZE_MAX - 1 <= r.0 <= SSIZE_MAX && -SSIZE_MAX - 1 <= r.1 <= SSIZE_MAX }

  /** Whatever text arrives, only valid ranges come out. */
  lemma {:induction false} ParsedAreValid(s: string)
    ensures ParsedHeader(s).Some? ==>
              ParsedHeader(s).value != []
              && forall r :: r in ParsedHeader(s).value ==> Valid(r) && FitsSsize(r)
  {
    hide Pieces, ParsedRange;
    if |s| > 7 && s[..6] == UNIT { ListIsValid(Pieces(s[6..], ','), 0); }
  }

  lemma {:induction false} ListIsValid(pieces: seq<string>, n: nat)
    requires n <= |pieces|
    ensures ParsedList(pieces, n).Some? ==> forall r :: r in ParsedList(pieces, n).value ==> Valid(r) && FitsSsize(r)
    decreases |pieces| - n
  {
    hide ParsedRange, Valid, FitsSsize;
    if n < |pieces| {
      ListIsValid(pieces, n + 1);
      RangeIsValid(pieces[n]);
    }
  }

  lemma RangeIsValid(piece: string)
    ensures ParsedRange(piece).Some? ==> Valid(ParsedRange(piece).value) && FitsSsize(ParsedRange(piece).value)
  {
  }

  lemma NumberText(n: int)
    requires n != -1
    ensures var t := if n == -1 then "" else ToString(n);
            AllDigits(t) == (n >= 0) && t != "" && (n >= 0 ==> ValueOf(t) == n && '-' !in t) && (n < 0 ==> t[0] == '-')
  {
    if n >= 0 { DecRoundTrip(n); } else { assert ToString(n)[0] == '-'; }
  }

  /** A written range reads back as itself exactly when it is valid. */
  lemma {:induction false} RangeRoundTrip(r: Range)
    requires FitsSsize(r)
    ensures ParsedRange(RangeText(r)) == if Valid(r) then Some(r) else None
    ensures RangeText(r) != "" && ',' !in RangeText(r)
    ensures !IsBlank(RangeText(r)[0]) && !IsBlank(RangeText(r)[|RangeText(r)| - 1])
  {
    hide Dec, ToString;
    var a := if r.0 == -1 then "" else ToString(r.0);
    var b := if r.1 == -1 then "" else ToString(r.1);
    if r.0 != -1 { NumberText(r.0); }
    if r.1 != -1 { NumberText(r.1); }
    var t := RangeText(r);
    assert t == a + "-" + b;
    NoCommas(r.0);
    NoCommas(r.1);
    if r.0 >= -1 {
      assert '-' !in a;
      assert t[|a|] == '-' && forall i :: 0 <= i < |a| ==> t[i] == a[i];
      assert IndexOf(t, '-') == |a|;
      assert t[..|a|] == a && t[|a| + 1..] == b;
    } else {
      assert t[0] == '-';
      assert IndexOf(t, '-') == 0;
      assert t[1..][|a| - 1] == '-';
    }
  }

  lemma {:induction false} NoCommas(n: int)
    ensures ',' !in ToString(n) && forall i :: 0 <= i < |ToString(n)| ==> !IsBlank(ToString(n)[i])
  {
    DecRoundTrip(if n < 0 then -n else n);
  }

  function Padding(n: nat): string { if n == 0 then "" else " " }

  /** The written list from `n` on, without the comma that precedes it. */
  function TailText(ranges: seq<Range>, n: nat): string
    requires n < |ranges|
  {
    Padding(n) + RangeText(ranges[n]) + ListText(ranges, n + 1)
  }

  lemma {:induction false} PaddedPiece(text: string, n: nat)
    requires text != "" && !IsBlank(text[0]) && !IsBlank(text[|text| - 1])
    ensures Kept(Trimmed(Padding(n) + text)) == [text]
  {
    var s := Padding(n) + text;
    var k := |Padding(n)|;
    assert s[k] == text[0] && s[|s| - 1] == text[|text| - 1];
    assert SkipBlanks(s, 0) == k;
    assert s[k..|s|] == text;
  }

  /** Splitting the written list at the commas gives back the written ranges. */
  lemma {:induction false} ListPieces(ranges: seq<Range>, n: nat)
    requires n < |ranges| && forall i :: 0 <= i < |ranges| ==> FitsSsize(ranges[i])
    ensures Pieces(TailText(ranges, n), ',') == Texts(ranges, n)
    decreases |ranges| - n
  {
    hide RangeText, Pieces, Trimmed, FitsSsize, ParsedRange, Valid;
    var text := RangeText(ranges[n]);
    var a := Padding(n) + text;
    RangeRoundTrip(ranges[n]);
    PaddedPiece(text, n);
    assert ',' !in a;
    if n + 1 == |ranges| {
      assert a + "" == a;
      PiecesNone(a, ',');
      assert Texts(ranges, n + 1) == [];
    } else {
      var b := TailText(ranges, n + 1);
      assert ListText(ranges, n + 1) == [','] + b;
      Append3(a, [','], b);
      PiecesCons(a, ',', b);
      ListPieces(ranges, n + 1);
    }
  }

  function Texts(ranges: seq<Range>, n: nat): seq<string>
    requires n <= |ranges|
    decreases |ranges| - n
  {
    if n == |ranges| then [] else [RangeText(ranges[n])] + Texts(ranges, n + 1)
  }

  lemma {:induction false} ParsedTexts(ranges: seq<Range>, n: nat, pieces: seq<string>, m: nat)
    requires n <= |ranges| && forall i :: 0 <= i < |ranges| ==> FitsSsize(ranges[i])
    requires m <= |pieces| && pieces[m..] == Texts(ranges, n)
    ensures var valid := forall i :: n <= i < |ranges| ==> Valid(ranges[i]);
            ParsedList(pieces, m) == if valid then Some(ranges[n..]) else None
    decreases |ranges| - n
  {
    hide RangeText, ParsedRange, Valid;
    if n < |ranges| {
      assert pieces[m] == pieces[m..][0] && pieces[m + 1..] == pieces[m..][1..];
      RangeRoundTrip(ranges[n]);
      ParsedTexts(ranges, n + 1, pieces, m + 1);
      assert ranges[n..] == [ranges[n]] + ranges[n + 1..];
    } else {
      assert |pieces[m..]| == 0;
    }
  }

  /** Parsing what was written returns the list unchanged exactly when it is not empty and
      every range in it is open, a suffix, or bounded in order. */
  lemma {:induction false} RangeHeaderRoundTrip(ranges: seq<Range>)
    requires forall i :: 0 <= i < |ranges| ==> FitsSsize(ranges[i])
    ensures var s := UNIT + ListText(ranges, 0);
            (ParsedHeader(s) == Some(ranges) <==> ranges != [] && forall i :: 0 <= i < |ranges| ==> Valid(ranges[i]))
            && (ParsedHeader(s) != Some(ranges) ==> ParsedHeader(s) == None)
  {
    hide RangeText, Pieces, ParsedList, Valid, ListText;
    var list := ListText(ranges, 0);
    var s := UNIT + list;
    assert s[..6] == UNIT && s[6..] == list;
    if ranges == [] {
      assert list == "" by { EmptyList(ranges); }
    } else {
      WholeList(ranges);
      ListPieces(ranges, 0);
      ParsedTexts(ranges, 0, Texts(ranges, 0), 0);
      assert Texts(ranges, 0)[0..] == Texts(ranges, 0) && ranges[0..] == ranges;
    }
  }

  lemma EmptyList(ranges: seq<Range>)
    requires ranges == []
    ensures ListText(ranges, 0) == ""
  {
  }

  lemma {:induction false} WholeList(ranges: seq<Range>)
    requires ranges != [] && forall i :: 0 <= i < |ranges| ==> FitsSsize(ranges[i])
    ensures ListText(ranges, 0) == TailText(ranges, 0)
    ensures |ListText(ranges, 0)| > 1 || !(forall i :: 0 <= i < |ranges| ==> Valid(ranges[i]))
  {
    hide Dec;
    var r := ranges[0];
    if Valid(r) { assert |RangeText(r)| > 1; }
  }

  // -------------------------------------------------------- what a piece means

  function Bound(digits: string): int
    requires AllDigits(digits)
  {
    if digits == "" then -1 else ValueOf(digits)
  }

  /** Digits around a dash, some of them missing perhaps, are the range they spell, unless both
      are missing, one does not fit, or they are in the wrong order. */
  lemma PieceMeans(a: string, b: string)
    requires AllDigits(a) && AllDigits(b)
    ensures ParsedRange(a + "-" + b)
            == if (a == "" && b == "") || Bound(a) > 0x7FFF_FFFF_FFFF_FFFF || Bound(b) > 0x7FFF_FFFF_FFFF_FFFF
                  || (a != "" && b != "" && Bound(a) > Bound(b)) then None
               else Some((Bound(a), Bound(b)))
  {
    var s := a + "-" + b;
    assert s[|a|] == '-' && forall i :: 0 <= i < |a| ==> s[i] == a[i] && s[i] != '-';
    assert IndexOf(s, '-') == |a|;
    assert s[..|a|] == a && s[|a| + 1..] == b;
  }

  /** Anything else is no range. */
  lemma NoPiece(a: string, b: string)
    requires '-' !in a
    ensures ParsedRange(a).None?
    ensures !AllDigits(a) || !AllDigits(b) ==> ParsedRange(a + "-" + b).None?
  {
    var s := a + "-" + b;
    assert s[|a|] == '-' && forall i :: 0 <= i < |a| ==> s[i] == a[i] && s[i] != '-';
    assert IndexOf(s, '-') == |a|;
    assert s[..|a|] == a && s[|a| + 1..] == b;
  }

  lemma {:induction false} ListParses(pieces: seq<string>, n: nat)
    requires n <= |pieces|
    ensures ParsedList(pieces, n).Some? <==> forall k :: n <= k < |pieces| ==> ParsedRange(pieces[k]).Some?
    ensures ParsedList(pieces, n).Some? ==>
              |ParsedList(pieces, n).value| == |pieces| - n
              && forall k :: n <= k < |pieces| ==> Some(ParsedList(pieces, n).value[k - n]) == ParsedRange(pieces[k])
    decreases |pieces| - n
  {
    hide ParsedRange;
    if n < |pieces| { ListParses(pieces, n + 1); }
  }

  /** The header is the list of its pieces, if it names bytes, has at least two characters
      behind the unit and a piece among them, and every piece is a range. */
  lemma {:induction false} HeaderMeans(s: string)
    ensures var pieces := if |s| < 6 then [] else Pieces(s[6..], ',');
            (ParsedHeader(s).Some? <==>
               |s| > 7 && s[..6] == "bytes=" && pieces != []
               && forall k :: 0 <= k < |pieces| ==> ParsedRange(pieces[k]).Some?)
            && (ParsedHeader(s).Some? ==>
                  |ParsedHeader(s).value| == |pieces|
                  && forall k :: 0 <= k < |pieces| ==> Some(ParsedHeader(s).value[k]) == ParsedRange(pieces[k]))
  {
    hide ParsedRange, Pieces, ParsedList;
    if |s| >= 6 { ListParses(Pieces(s[6..], ','), 0); }
  }
}
