/** Byte strings and the searches on them.

    A byte is written as the character with the same code, so a statement about
    every `string` is in particular one about every byte string. */
module Bytes {

  datatype Option<+T> = None | Some(value: T)

  const CRLF := "\r\n"
  const DASH := "--"

  // ---------------------------------------------------------------- searching

  predicate OccursAt(s: string, p: string, i: nat) {
    i + |p| <= |s| && s[i..i + |p|] == p
  }

  /** First position at or after `i` where `p` occurs, or |s| when there is none. */
  function FindFrom(s: string, p: string, i: nat): (r: nat)
    requires i <= |s| && p != ""
    ensures i <= r <= |s|
    ensures r < |s| ==> OccursAt(s, p, r)
    ensures forall j: nat :: i <= j < r ==> !OccursAt(s, p, j)
    decreases |s| - i
  {
    if i + |p| > |s| then |s|
    else if s[i..i + |p|] == p then i
    else FindFrom(s, p, i + 1)
  }

  function Find(s: string, p: string): (r: nat)
    requires p != ""
    ensures r <= |s|
    ensures r < |s| ==> OccursAt(s, p, r)
    ensures forall j: nat :: j < r ==> !OccursAt(s, p, j)
  {
    FindFrom(s, p, 0)
  }

  /** First position of the byte `c` at or after `i`, or |s| when there is none. */
  function IndexFrom(s: string, c: char, i: nat): (r: nat)
    requires i <= |s|
    ensures i <= r <= |s|
    ensures r < |s| ==> s[r] == c
    ensures forall j :: i <= j < r ==> s[j] != c
    decreases |s| - i
  {
    if i == |s| || s[i] == c then i else IndexFrom(s, c, i + 1)
  }

  function IndexOf(s: string, c: char): (r: nat)
    ensures r <= |s|
    ensures r < |s| ==> s[r] == c
    ensures forall j :: 0 <= j < r ==> s[j] != c
  {
    IndexFrom(s, c, 0)
  }

  /** The two clauses of `Find` leave one possible value. */
  lemma FindIs(s: string, p: string, k: nat)
    requires p != ""
    requires OccursAt(s, p, k) && forall j: nat :: j < k ==> !OccursAt(s, p, j)
    ensures Find(s, p) == k
  {
    assert Find(s, p) >= k;
  }

  lemma FindNone(s: string, p: string)
    requires p != ""
    requires forall j: nat :: !OccursAt(s, p, j)
    ensures Find(s, p) == |s|
  {
  }

  /** Searching a prefix of a longer text: an occurrence that fits inside the prefix
      is found where it is in the whole text, and otherwise nothing is found. */
  lemma FindInPrefix(live: string, rest: string, p: string)
    requires p != ""
    ensures var k := Find(live + rest, p);
            Find(live, p) == if k + |p| <= |live| then k else |live|
  {
    var all := live + rest;
    var k := Find(all, p);
    forall j: nat | j + |p| <= |live| ensures OccursAt(live, p, j) <==> OccursAt(all, p, j) {
      assert all[j..j + |p|] == live[j..j + |p|];
    }
    if k + |p| <= |live| {
      FindIs(live, p, k);
    } else {
      assert forall j: nat | j + |p| <= |live| :: j < k && !OccursAt(all, p, j);
      FindNone(live, p);
    }
  }

  /** A pattern whose first byte does not come back inside it cannot start in `x` and
      end beyond it, so it is found right after an `x` that does not contain it. */
  lemma FindAfter(x: string, p: string, y: string)
    requires p != "" && p[0] !in p[1..]
    requires forall j: nat :: !OccursAt(x, p, j)
    ensures Find(x + p + y, p) == |x|
  {
    var all := x + p + y;
    assert all[|x|..|x| + |p|] == p;
    forall j: nat | j < |x| ensures !OccursAt(all, p, j) {
      if j + |p| <= |x| {
        assert x[j..j + |p|] == all[j..j + |p|];
        assert !OccursAt(x, p, j);
      } else {
        var m := |x| - j;
        assert p[m] == p[1..][m - 1] != p[0];
        assert all[j..j + |p|][m] == all[|x|] == p[0];
      }
    }
    FindIs(all, p, |x|);
  }

  // ------------------------------------------------------------- C strings

  /** What a C library function sees of a buffer: everything before the first NUL. */
  function CStr(s: string): string { s[..IndexOf(s, '\0')] }

  // -------------------------------------------------------- letter case, blanks

  /** The lower-case table: ASCII letters and the Latin-1 capitals. */
  function ToLower(c: char): char {
    if 'A' <= c <= 'Z' || ('\U{C0}' <= c <= '\U{DE}' && c != '\U{D7}') then (c as int + 32) as char else c
  }

  predicate EqualIgnoreCase(a: string, b: string) {
    |a| == |b| && forall i :: 0 <= i < |a| ==> ToLower(a[i]) == ToLower(b[i])
  }

  predicate StartsWithIgnoreCase(a: string, b: string) {
    |b| <= |a| && EqualIgnoreCase(a[..|b|], b)
  }

  predicate IsDigit(c: char) { '0' <= c <= '9' }

  predicate IsAlnum(c: char) { IsDigit(c) || 'A' <= c <= 'Z' || 'a' <= c <= 'z' }

  predicate IsBlank(c: char) { c == ' ' || c == '\t' }

  // ---------------------------------------------------------------- trimming

  function SkipBlanks(s: string, i: nat): (r: nat)
    requires i <= |s|
    ensures i <= r <= |s|
    ensures r < |s| ==> !IsBlank(s[r])
    ensures forall j :: i <= j < r ==> IsBlank(s[j])
    decreases |s| - i
  {
    if i < |s| && IsBlank(s[i]) then SkipBlanks(s, i + 1) else i
  }

  function DropBlanks(s: string, i: nat): (r: nat)
    requires i <= |s|
    ensures r <= i
    ensures r > 0 ==> !IsBlank(s[r - 1])
    ensures forall j :: r <= j < i ==> IsBlank(s[j])
  {
    if i > 0 && IsBlank(s[i - 1]) then DropBlanks(s, i - 1) else i
  }

  function Window(s: string, l: nat, r: nat): string
    requires l <= |s| && r <= |s|
  {
    if l < r then s[l..r] else ""
  }

  /** The window `i..j` of `s` without its outer spaces and tabs. */
  function TrimmedWindow(s: string, i: nat, j: nat): string
    requires i <= |s| && j <= |s|
  {
    Window(s, SkipBlanks(s, i), DropBlanks(s, j))
  }

  function Trimmed(s: string): string { TrimmedWindow(s, 0, |s|) }

  lemma TrimmedIdentity(s: string)
    requires s != "" ==> !IsBlank(s[0]) && !IsBlank(s[|s| - 1])
    ensures Trimmed(s) == s
  {
    if s != "" { assert s[0..|s|] == s; }
  }

  /** First position of the byte from the start on. */
  method FindByte(s: string, c: char) returns (k: nat)
    ensures k == IndexOf(s, c)
  {
    k := 0;
    while k < |s| && s[k] != c
      invariant 0 <= k <= |s| && IndexFrom(s, c, k) == IndexOf(s, c)
    {
      k := k + 1;
    }
  }

  method SkipBlank(s: string, i0: nat) returns (i: nat)
    requires i0 <= |s|
    ensures i == SkipBlanks(s, i0)
  {
    i := i0;
    while i < |s| && IsBlank(s[i])
      invariant i0 <= i <= |s| && SkipBlanks(s, i) == SkipBlanks(s, i0)
    {
      i := i + 1;
    }
  }

  method DropBlank(s: string, i0: nat) returns (i: nat)
    requires i0 <= |s|
    ensures i == DropBlanks(s, i0)
  {
    i := i0;
    while i > 0 && IsBlank(s[i - 1])
      invariant i <= i0 && DropBlanks(s, i) == DropBlanks(s, i0)
    {
      i := i - 1;
    }
  }

  /** Two bounds: `left` moves up and `right` moves down, each bounded by the whole string and
      not by the other. */
  method TrimWindow(s: string, left0: nat, right0: nat) returns (left: nat, right: nat)
    requires left0 <= |s| && right0 <= |s|
    ensures left == SkipBlanks(s, left0) && right == DropBlanks(s, right0)
  {
    left := SkipBlank(s, left0);
    right := DropBlank(s, right0);
  }

  method Trim(s: string) returns (r: string)
    ensures r == Trimmed(s)
  {
    var left, right := TrimWindow(s, 0, |s|);
    r := Window(s, left, right);
  }

  /** Strips one pair of double quotes around a string of at least two bytes. */
  function WithoutDoubleQuotes(s: string): string {
    if |s| >= 2 && s[0] == '"' && s[|s| - 1] == '"' then s[1..|s| - 1] else s
  }

  // --------------------------------------------------------------- splitting

  function Kept(s: string): seq<string> { if s == "" then [] else [s] }

  /** The trimmed non-empty pieces of `s` between the delimiters `d`, from `i` on. */
  function PiecesFrom(s: string, d: char, i: nat): seq<string>
    requires i <= |s|
    decreases |s| - i
  {
    var k := IndexFrom(s, d, i);
    Kept(TrimmedWindow(s, i, k)) + if k == |s| then [] else PiecesFrom(s, d, k + 1)
  }

  function Pieces(s: string, d: char): seq<string> { PiecesFrom(s, d, 0) }

  lemma Append3<T>(a: seq<T>, b: seq<T>, c: seq<T>)
    ensures a + (b + c) == (a + b) + c
  {
  }

  lemma DropDrop<T>(s: seq<T>, a: nat, b: nat)
    requires a + b <= |s|
    ensures s[a..][b..] == s[a + b..]
  {
  }

  lemma TakeNext<T>(s: seq<T>, i: nat)
    requires i < |s|
    ensures s[..i + 1] == s[..i] + [s[i]]
  {
  }

  method Keep(pieces: seq<string>, w: string) returns (r: seq<string>)
    ensures r == pieces + Kept(w)
  {
    r := if w == "" then pieces else pieces + [w];
  }

  method Split(s: string, d: char) returns (pieces: seq<string>)
    ensures pieces == Pieces(s, d)
  {
    hide SkipBlanks, DropBlanks;
    pieces := [];
    var i, beg := 0, 0;
    ghost var rest := Pieces(s, d);
    while i < |s|
      invariant 0 <= beg <= i <= |s|
      invariant IndexFrom(s, d, beg) == IndexFrom(s, d, i)
      invariant rest == PiecesFrom(s, d, beg)
      invariant pieces + rest == Pieces(s, d)
    {
      if s[i] == d {
        var left, right := TrimWindow(s, beg, i);
        Append3(pieces, Kept(Window(s, left, right)), PiecesFrom(s, d, i + 1));
        pieces := Keep(pieces, Window(s, left, right));
        beg := i + 1;
        rest := PiecesFrom(s, d, beg);
      }
      i := i + 1;
    }
    if i > 0 {
      var left, right := TrimWindow(s, beg, i);
      Append3(pieces, Kept(Window(s, left, right)), []);
      pieces := Keep(pieces, Window(s, left, right));
    }
  }

  lemma PiecesNone(s: string, d: char)
    requires d !in s
    ensures Pieces(s, d) == Kept(Trimmed(s))
  {
    assert IndexFrom(s, d, 0) == |s|;
  }

  lemma {:induction false} IndexShift(pre: string, t: string, d: char, i: nat)
    requires i <= |t|
    ensures IndexFrom(pre + t, d, |pre| + i) == |pre| + IndexFrom(t, d, i)
    decreases |t| - i
  {
    if i < |t| { IndexShift(pre, t, d, i + 1); }
  }

  lemma {:induction false} SkipShift(pre: string, t: string, i: nat)
    requires i <= |t|
    ensures SkipBlanks(pre + t, |pre| + i) == |pre| + SkipBlanks(t, i)
    decreases |t| - i
  {
    if i < |t| { SkipShift(pre, t, i + 1); }
  }

  lemma {:induction false} DropShift(pre: string, t: string, i: nat)
    requires i <= |t| && (pre == "" || !IsBlank(pre[|pre| - 1]))
    ensures DropBlanks(pre + t, |pre| + i) == |pre| + DropBlanks(t, i)
  {
    if i > 0 { DropShift(pre, t, i - 1); }
  }

  lemma SliceShift(pre: string, t: string, l: nat, r: nat)
    requires l <= |t| && r <= |t|
    ensures Window(pre + t, |pre| + l, |pre| + r) == Window(t, l, r)
  {
    if l < r { assert (pre + t)[|pre| + l..|pre| + r] == t[l..r]; }
  }

  lemma {:induction false} WindowShift(pre: string, t: string, i: nat, j: nat)
    requires i <= |t| && j <= |t| && (pre == "" || !IsBlank(pre[|pre| - 1]))
    ensures TrimmedWindow(pre + t, |pre| + i, |pre| + j) == TrimmedWindow(t, i, j)
  {
    hide SkipBlanks, DropBlanks;
    SkipShift(pre, t, i);
    DropShift(pre, t, j);
    SliceShift(pre, t, SkipBlanks(t, i), DropBlanks(t, j));
  }

  lemma {:induction false} PiecesStep(s: string, d: char, i: nat, k: nat)
    requires i <= |s| && k == IndexFrom(s, d, i)
    ensures PiecesFrom(s, d, i) == Kept(TrimmedWindow(s, i, k)) + if k == |s| then [] else PiecesFrom(s, d, k + 1)
  {
    hide TrimmedWindow, Kept, IndexFrom;
  }

  lemma {:induction false} PiecesShift(pre: string, t: string, d: char, i: nat)
    requires i <= |t| && (pre == "" || !IsBlank(pre[|pre| - 1]))
    ensures PiecesFrom(pre + t, d, |pre| + i) == PiecesFrom(t, d, i)
    decreases |t| - i
  {
    hide TrimmedWindow, Kept, IndexFrom, PiecesFrom;
    var k := IndexFrom(t, d, i);
    IndexShift(pre, t, d, i);
    WindowShift(pre, t, i, k);
    PiecesStep(t, d, i, k);
    PiecesStep(pre + t, d, |pre| + i, |pre| + k);
    if k < |t| { PiecesShift(pre, t, d, k + 1); }
  }

  /** The piece before the first delimiter, and the pieces behind it. */
  lemma {:induction false} PiecesCons(a: string, d: char, b: string)
    requires d !in a && !IsBlank(d)
    ensures Pieces(a + [d] + b, d) == Kept(Trimmed(a)) + Pieces(b, d)
  {
    hide TrimmedWindow, PiecesFrom, IndexFrom, Kept;
    FirstIndex(a, d, b);
    FirstWindow(a, d, b);
    PiecesStep(a + [d] + b, d, 0, |a|);
    PiecesShift(a + [d], b, d, 0);
  }

  lemma FirstIndex(a: string, d: char, b: string)
    requires d !in a
    ensures IndexFrom(a + [d] + b, d, 0) == |a|
  {
    var s := a + [d] + b;
    assert s[|a|] == d && forall i :: 0 <= i < |a| ==> s[i] == a[i];
  }

  lemma {:induction false} FirstWindow(a: string, d: char, b: string)
    requires !IsBlank(d)
    ensures TrimmedWindow(a + [d] + b, 0, |a|) == Trimmed(a)
  {
    var s := a + [d] + b;
    SkipInside(a, d, b, 0);
    DropInside(a, [d] + b, |a|);
    assert s == a + ([d] + b);
    var l, r := SkipBlanks(a, 0), DropBlanks(a, |a|);
    if l < r { assert s[l..r] == a[l..r]; }
  }

  lemma {:induction false} SkipInside(a: string, d: char, b: string, i: nat)
    requires i <= |a| && !IsBlank(d)
    ensures SkipBlanks(a + [d] + b, i) == SkipBlanks(a, i)
    decreases |a| - i
  {
    if i < |a| { SkipInside(a, d, b, i + 1); }
  }

  lemma {:induction false} DropInside(a: string, b: string, i: nat)
    requires i <= |a|
    ensures DropBlanks(a + b, i) == DropBlanks(a, i)
  {
    if i > 0 { DropInside(a, b, i - 1); }
  }

  function Pow2(k: nat): (r: nat)
    ensures r > 0
  {
    if k == 0 then 1 else 2 * Pow2(k - 1)
  }
}
