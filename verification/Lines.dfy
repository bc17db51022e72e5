/** Reading one line at a time from a stream, and the line a text starts with. */
module Lines {
  import opened Bytes
  import opened Streams

  const MAX_LINE_LENGTH := 32768

  /** What a line read takes from `s`: how many bytes, and whether they are a line. A line
      ends with the first CRLF, or with the text when that comes first; one that reaches
      the limit without ending is refused. */
  function LineAt(s: string): (r: (bool, nat))
    ensures r.1 <= |s| && r.1 <= MAX_LINE_LENGTH
    ensures r.0 ==> r.1 > 0
  {
    var k := Find(s, CRLF);
    if k < |s| && k + 2 <= MAX_LINE_LENGTH then (true, k + 2)
    else if k == |s| < MAX_LINE_LENGTH then (s != "", |s|)
    else (false, MAX_LINE_LENGTH)
  }

  class LineReader {
    const strm: SocketStream
    const fixedBuffer: array<char>
    var fixedUsed: nat
    var growable: string

    ghost predicate Valid()
      reads this, strm
    {
      strm.Valid() && fixedBuffer != strm.readBuff && fixedBuffer.Length >= 2
      && fixedUsed < fixedBuffer.Length
      && (growable != "" ==> fixedUsed == fixedBuffer.Length - 1)
    }

    /** The line as read so far: whichever of the two buffers holds it. */
    ghost function Text(): string
      requires Valid()
      reads this, strm, fixedBuffer
    {
      if growable == "" then fixedBuffer[..fixedUsed] else growable
    }

    constructor (strm: SocketStream, fixedSize: nat)
      requires strm.Valid() && fixedSize >= 2
      ensures Valid() && this.strm == strm && fresh(fixedBuffer)
    {
      this.strm := strm;
      fixedBuffer := new char[fixedSize](_ => '\0');
      fixedUsed, growable := 0, "";
    }

    method Ptr() returns (text: string)
      requires Valid()
      ensures text == Text()
    {
      text := if growable == "" then fixedBuffer[..fixedUsed] else growable;
    }

    method Size() returns (n: nat)
      requires Valid()
      ensures n == |Text()|
    {
      n := if growable == "" then fixedUsed else |growable|;
    }

    method Clear()
      requires Valid()
      modifies this`fixedUsed, this`growable
      ensures Valid() && Text() == "" && strm.Pending() == old(strm.Pending())
    {
      fixedUsed, growable := 0, "";
    }

    method Append(c: char)
      requires Valid()
      modifies this`fixedUsed, this`growable, fixedBuffer
      ensures Valid() && Text() == old(Text()) + [c]
    {
      if fixedUsed < fixedBuffer.Length - 1 {
        fixedBuffer[fixedUsed] := c;
        fixedUsed := fixedUsed + 1;
        fixedBuffer[fixedUsed] := '\0';
      } else {
        if growable == "" { growable := fixedBuffer[..fixedUsed]; }
        growable := growable + [c];
      }
    }

    /** Reads one byte into the line: -1 on failure, 0 at the end of the stream. */
    method NextByte() returns (n: int, c: char)
      requires Valid()
      modifies this`fixedUsed, this`growable, fixedBuffer, strm, strm.readBuff
      ensures Valid() && n <= 1
      ensures n < 0 ==> strm.mayFail
      ensures n <= 0 ==> Text() == old(Text()) && strm.Pending() == old(strm.Pending())
      ensures n == 0 ==> old(strm.Pending()) == ""
      ensures n == 1 ==> Text() == old(Text()) + [c] && old(strm.Pending()) == [c] + strm.Pending()
    {
      var data;
      n, data := strm.Read(1);
      c := '\0';
      if n > 0 {
        c := data[0];
        Append(c);
      }
    }

    /** Reads byte by byte. A successful read holds exactly the bytes it took; when the
        stream does not fail, the outcome is the one `LineAt` describes. */
    method GetLine() returns (ok: bool)
      requires Valid()
      modifies this`fixedUsed, this`growable, fixedBuffer, strm, strm.readBuff
      ensures Valid() && old(strm.Pending()) == Text() + strm.Pending()
      ensures ok ==> (true, |Text()|) == LineAt(old(strm.Pending()))
      ensures !strm.mayFail ==> (ok, |Text()|) == LineAt(old(strm.Pending()))
    {
      hide LineAt, OccursAt, NoCrlfIn, Text, SocketStream.Pending;
      FirstBytes(strm.Pending());
      ghost var s := strm.Pending();
      Clear();
      assert "" + s == s;
      var prev := '\0';
      var i := 0;
      while true
        invariant Valid() && |Text()| == i && i <= MAX_LINE_LENGTH
        invariant s == Text() + strm.Pending()
        invariant prev == if i == 0 then '\0' else s[i - 1]
        invariant NoCrlfIn(s, i)
        decreases |strm.Pending()|
      {
        var size := Size();
        if size >= MAX_LINE_LENGTH {
          LineTooLong(s);
          return false;
        }
        ghost var was := Text();
        var n, c := NextByte();
        if n <= 0 {
          if n == 0 { LineCut(s); }
          return n == 0 && i > 0;
        }
        NextIs(s, was, c, strm.Pending());
        CrlfEnds(s, prev, c, i);
        i := i + 1;
        if prev == '\r' && c == '\n' {
          LineFound(s, i - 2);
          return true;
        }
        prev := c;
      }
    }
  }

  lemma NextIs(s: string, was: string, c: char, more: string)
    requires s == was + ([c] + more)
    ensures s == was + [c] + more && |was| < |s| && s[|was|] == c
  {
    Append3(was, [c], more);
  }

  /** No CRLF lies inside the first `i` bytes. */
  ghost predicate NoCrlfIn(s: string, i: nat) { forall j: nat :: j + 2 <= i ==> !OccursAt(s, CRLF, j) }

  lemma FirstBytes(s: string)
    ensures NoCrlfIn(s, 0)
  {
  }

  /** The two-byte test at each step sees exactly the occurrences of CRLF. */
  lemma CrlfEnds(s: string, prev: char, c: char, i: nat)
    requires i < |s| && s[i] == c && prev == (if i == 0 then '\0' else s[i - 1]) && NoCrlfIn(s, i)
    ensures prev == '\r' && c == '\n' ==> i > 0 && OccursAt(s, CRLF, i - 1)
    ensures !(prev == '\r' && c == '\n') ==> NoCrlfIn(s, i + 1)
  {
    if i > 0 {
      assert s[i - 1..i + 1] == [s[i - 1], s[i]];
      assert OccursAt(s, CRLF, i - 1) <==> prev == '\r' && c == '\n';
    }
    forall j: nat | j + 2 <= i + 1 && !(prev == '\r' && c == '\n') ensures !OccursAt(s, CRLF, j) {
      if j + 2 <= i { assert !OccursAt(s, CRLF, j); } else { assert j == i - 1; }
    }
  }

  lemma LineFound(s: string, k: nat)
    requires OccursAt(s, CRLF, k) && k + 2 <= 32768 && NoCrlfIn(s, k + 1)
    ensures LineAt(s) == (true, k + 2)
  {
    assert forall j: nat | j < k :: j + 2 <= k + 1 && !OccursAt(s, CRLF, j);
    FindIs(s, CRLF, k);
  }

  lemma LineCut(s: string)
    requires |s| < 32768 && NoCrlfIn(s, |s|)
    ensures LineAt(s) == (s != "", |s|)
  {
    FindNone(s, CRLF);
  }

  lemma LineTooLong(s: string)
    requires |s| >= 32768 && NoCrlfIn(s, 32768)
    ensures LineAt(s) == (false, 32768)
  {
    assert forall j: nat | j + 2 <= MAX_LINE_LENGTH :: !OccursAt(s, CRLF, j);
  }

  /** A line without a carriage return, ended by CRLF and not too long, is read whole. */
  lemma LineOf(line: string, rest: string)
    requires '\r' !in line && |line| + 2 <= 32768
    ensures LineAt(line + CRLF + rest) == (true, |line| + 2)
    ensures var s := line + CRLF + rest; s[..|line| + 2] == line + CRLF && s[|line| + 2..] == rest
  {
    var s := line + CRLF + rest;
    forall j: nat ensures !OccursAt(line, CRLF, j) {
      if j + 2 <= |line| { assert line[j..j + 2][0] == line[j] != '\r'; }
    }
    FindAfter(line, CRLF, rest);
  }
}
