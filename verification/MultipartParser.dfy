/** The incremental multipart/form-data parser (section 5.1 of RFC 2046): first as a
    function on values, then as the class that works in place on a compacting buffer. */
module MultipartParser {
  import opened Bytes
  import opened Fields
  import opened PartHeaders

  // ------------------------------------------------------------ value-level parser

  /** The calls made on the caller: a new part, or a piece of its content. */
  datatype Event = Part(file: MultipartFormData) | Data(bytes: string)

  /** The caller's answer to the last call, given all calls so far. */
  type Receiver = seq<Event> -> bool

  /** Everything the parser keeps between calls, with the buffer seen as its live window. */
  datatype Parser = Parser(state: nat, live: string, file: MultipartFormData, valid: bool, events: seq<Event>)

  const INITIAL := Parser(0, "", NO_FILE, false, [])

  datatype Turn = Return(ok: bool, p: Parser) | Continue(p: Parser)

  function Opening(boundary: string): (r: string)
    ensures |r| == |boundary| + 4
  {
    DASH + boundary + CRLF
  }

  function Delimiter(boundary: string): (r: string)
    ensures |r| == |boundary| + 4
  {
    CRLF + DASH + boundary
  }

  function InitialTurn(p: Parser, d: string): Turn
    requires d != ""
  {
    var pos := Find(p.live, d);
    if pos == |p.live| then Return(true, p.(live := ""))
    else Continue(p.(live := p.live[pos + |d|..], state := 1))
  }

  /** One complete header line: the empty one calls the receiver and starts the body. */
  function LineTurn(p: Parser, pos: nat, accept: Receiver): (t: Turn)
    requires pos + 2 <= |p.live|
    ensures t.Continue? ==> |t.p.live| < |p.live| && (t.p.state == 3 || t.p.state == p.state)
  {
    if pos == 0 then
      var q := p.(events := p.events + [Part(p.file)]);
      if accept(q.events) then Continue(q.(live := p.live[2..], state := 3)) else Return(false, q.(valid := false))
    else
      var (ok, file) := PartHeader(p.live[..pos], p.file);
      if ok then Continue(p.(file := file, live := p.live[pos + 2..]))
      else Return(false, p.(file := file, valid := false))
  }

  /** The lines of a part header that are complete, up to the empty one. */
  function LinesTurn(p: Parser, accept: Receiver): (t: Turn)
    ensures t.Continue? ==> |t.p.live| < |p.live| && t.p.state == 3
    decreases |p.live|
  {
    var pos := Find(p.live, CRLF);
    if pos == |p.live| then Return(true, p)
    else match LineTurn(p, pos, accept)
      case Return(ok, q) => Return(ok, q)
      case Continue(q) => if q.state == 3 then Continue(q) else LinesTurn(q, accept)
  }

  /** The length is tested on entry only, on a first line that may still be incomplete. */
  function HeadersTurn(p: Parser, accept: Receiver): (t: Turn)
    ensures t.Continue? ==> |t.p.live| < |p.live| && t.p.state == 3
  {
    if Find(p.live, CRLF) > HEADER_MAX_LENGTH then Return(false, p) else LinesTurn(p, accept)
  }

  function BodyTurn(p: Parser, d: string, accept: Receiver): (t: Turn)
    requires d != ""
    ensures t.Continue? ==> |t.p.live| < |p.live| && t.p.state == 4
  {
    if |d| > |p.live| then Return(true, p)
    else
      var pos := Find(p.live, d);
      if pos < |p.live| then
        var q := p.(events := p.events + [Data(p.live[..pos])]);
        if accept(q.events) then Continue(q.(live := p.live[pos + |d|..], state := 4))
        else Return(false, q.(valid := false))
      else
        var len := |p.live| - |d|;
        if len == 0 then Return(true, p)
        else
          var q := p.(events := p.events + [Data(p.live[..len])]);
          if accept(q.events) then Return(true, q.(live := p.live[len..])) else Return(false, q.(valid := false))
  }

  function BoundaryTurn(p: Parser): (t: Turn)
    ensures t.Continue? ==> |t.p.live| < |p.live|
  {
    if 2 > |p.live| then Return(true, p)
    else if OccursAt(p.live, CRLF, 0) then Continue(p.(live := p.live[2..], state := 1))
    else if OccursAt(p.live, DASH, 0) then Continue(p.(live := "", valid := true))
    else Return(true, p)
  }

  /** One round of the parser's loop. */
  function Round(p: Parser, opening: string, delimiter: string, accept: Receiver): Turn
    requires opening != "" && delimiter != ""
  {
    if p.state == 0 then InitialTurn(p, opening)
    else if p.state == 1 then Continue(p.(file := NO_FILE, state := 2))
    else if p.state == 2 then HeadersTurn(p, accept)
    else if p.state == 3 then BodyTurn(p, delimiter, accept)
    else BoundaryTurn(p)
  }

  /** The whole loop on what the buffer now holds. */
  function Run(p: Parser, opening: string, delimiter: string, accept: Receiver): (bool, Parser)
    requires opening != "" && delimiter != ""
    decreases |p.live|, if p.state == 1 then 1 else 0
  {
    if p.live == "" then (true, p)
    else match Round(p, opening, delimiter, accept)
      case Return(ok, q) => (ok, q)
      case Continue(q) => Run(q, opening, delimiter, accept)
  }

  /** Handing over fragments one after the other until one is refused. */
  function Feed(p: Parser, opening: string, delimiter: string, accept: Receiver, fragments: seq<string>): (bool, Parser)
    requires opening != "" && delimiter != ""
    decreases |fragments|
  {
    if fragments == [] then (true, p)
    else
      var (ok, q) := Run(p.(live := p.live + fragments[0]), opening, delimiter, accept);
      if ok then Feed(q, opening, delimiter, accept, fragments[1..]) else (false, q)
  }

  // ---------------------------------------------------------------- in-place parser

  lemma {:induction false} LinesStep(p: Parser, accept: Receiver)
    ensures var pos := Find(p.live, CRLF);
            LinesTurn(p, accept) ==
            if pos == |p.live| then Return(true, p)
            else
              var t := LineTurn(p, pos, accept);
              if t.Return? || t.p.state == 3 then t else LinesTurn(t.p, accept)
  {
    hide LineTurn;
  }

  lemma {:induction false} InitialTurnAt(p: Parser, d: string)
    requires d != ""
    ensures var pos := Find(p.live, d);
            InitialTurn(p, d) == if pos + |d| > |p.live| then Return(true, p.(live := p.live[pos..]))
                                 else Continue(p.(live := p.live[pos..][|d|..], state := 1))
  {
    hide Find;
    var pos := Find(p.live, d);
    if pos < |p.live| { DropDrop(p.live, pos, |d|); } else { assert p.live[pos..] == ""; }
  }

  lemma FoundFirst(live: string, d: string, pos: nat)
    requires pos <= |live|
    ensures OccursAt(live, d, pos) <==> OccursAt(live[pos..], d, 0)
    ensures OccursAt(live, d, pos) ==> pos + |d| <= |live|
  {
    if pos + |d| <= |live| { assert live[pos..][0..|d|] == live[pos..pos + |d|]; }
  }

  lemma PutNext(before: string, after: string, k: nat, c: char)
    requires k < |before| && after == before[k := c]
    ensures after[..k + 1] == before[..k] + [c]
  {
  }

  class MultipartFormDataParser {
    const dashBoundaryCrlf: string
    const crlfDashBoundary: string
    var state: nat
    var isValid: bool
    var file: MultipartFormData
    var events: seq<Event>
    var buf: array<char>
    var bufSpos: nat
    var bufEpos: nat

    ghost predicate Valid()
      reads this
    {
      bufSpos <= bufEpos <= buf.Length && state <= 4
      && dashBoundaryCrlf != "" && crlfDashBoundary != ""
    }

    ghost function Live(): string
      requires Valid()
      reads this, buf
    {
      buf[bufSpos..bufEpos]
    }

    ghost function Value(): Parser
      requires Valid()
      reads this, buf
    {
      Parser(state, Live(), file, isValid, events)
    }

    constructor (boundary: string)
      ensures Valid() && fresh(buf)
      ensures dashBoundaryCrlf == Opening(boundary) && crlfDashBoundary == Delimiter(boundary)
      ensures Value() == INITIAL
    {
      dashBoundaryCrlf := DASH + boundary + CRLF;
      crlfDashBoundary := CRLF + DASH + boundary;
      state, isValid, file, events := 0, false, NO_FILE, [];
      buf := new char[0];
      bufSpos, bufEpos := 0, 0;
    }

    function BufSize(): nat
      requires bufSpos <= bufEpos
      reads this
    {
      bufEpos - bufSpos
    }

    method StartWith(pos: nat, s: string) returns (r: bool)
      requires Valid() && bufSpos <= pos <= bufEpos
      ensures r <==> OccursAt(Live(), s, pos - bufSpos)
    {
      if bufEpos - pos < |s| { return false; }
      ghost var live := Live();
      for i := 0 to |s|
        invariant live[pos - bufSpos..pos - bufSpos + i] == s[..i]
      {
        assert live[pos - bufSpos + i] == buf[pos + i];
        if buf[pos + i] != s[i] {
          assert live[pos - bufSpos..pos - bufSpos + |s|][i] == buf[pos + i];
          return false;
        }
        TakeNext(s, i);
        assert live[pos - bufSpos..pos - bufSpos + i + 1] == live[pos - bufSpos..pos - bufSpos + i] + [buf[pos + i]];
      }
      return true;
    }

    method BufFind(s: string) returns (r: nat)
      requires Valid() && s != ""
      ensures r == Find(Live(), s)
    {
      ghost var live := Live();
      var c := s[0];
      var off := bufSpos;
      while off < bufEpos
        invariant bufSpos <= off <= bufEpos
        invariant forall j: nat :: j < off - bufSpos ==> !OccursAt(live, s, j)
      {
        var pos := off;
        while pos < bufEpos && buf[pos] != c
          invariant off <= pos <= bufEpos
          invariant forall j: nat :: j < pos - bufSpos ==> !OccursAt(live, s, j)
        {
          assert live[pos - bufSpos] == buf[bufSpos..bufEpos][pos - bufSpos] == buf[pos];
          NotAt(live, s, pos - bufSpos);
          pos := pos + 1;
        }
        if pos == bufEpos || |s| > bufEpos - pos {
          FindNone(live, s);
          return BufSize();
        }
        var found := StartWith(pos, s);
        if found {
          FindIs(live, s, pos - bufSpos);
          return pos - bufSpos;
        }
        off := pos + 1;
      }
      FindNone(live, s);
      return BufSize();
    }

    /** Moves the live bytes to the front of the buffer. */
    method BufCompact()
      requires Valid()
      modifies this`bufSpos, this`bufEpos, buf
      ensures Valid() && bufSpos == 0 && Live() == old(Live())
    {
      ghost var was := Live();
      var remaining := BufSize();
      if remaining > 0 && bufSpos > 0 {
        for i := 0 to remaining
          invariant Valid() && bufSpos == old(bufSpos) && bufEpos == old(bufEpos)
          invariant buf[..i] == was[..i]
          invariant buf[bufSpos + i..bufEpos] == was[i..]
        {
          assert buf[bufSpos + i] == buf[bufSpos + i..bufEpos][0];
          buf[i] := buf[bufSpos + i];
        }
      }
      bufSpos, bufEpos := 0, remaining;
    }

    method BufResize(size: nat)
      requires Valid() && bufSpos == 0 && size > buf.Length
      modifies this`buf
      ensures Valid() && fresh(buf) && buf.Length == size && Live() == old(Live())
    {
      var source := buf;
      buf := new char[size](i requires 0 <= i reads source => if i < source.Length then source[i] else '\0');
      assert forall i :: 0 <= i < bufEpos ==> buf[i] == source[i];
    }

    /** Copies the bytes behind the live window. */
    method BufCopy(data: string)
      requires bufEpos + |data| <= buf.Length
      modifies buf
      ensures buf[..bufEpos + |data|] == old(buf[..bufEpos]) + data
    {
      ghost var was := buf[..bufEpos];
      for i := 0 to |data|
        invariant buf[..bufEpos + i] == was + data[..i]
      {
        TakeNext(data, i);
        Append3(was, data[..i], [data[i]]);
        ghost var before := buf[..];
        buf[bufEpos + i] := data[i];
        PutNext(before, buf[..], bufEpos + i, data[i]);
      }
      assert data[..|data|] == data;
    }

    /** Adds `data` behind the live bytes, making room first. */
    method BufAppend(data: string)
      requires Valid()
      modifies this`buf, this`bufSpos, this`bufEpos, buf
      ensures Valid() && (buf == old(buf) || fresh(buf))
      ensures Live() == old(Live()) + data
    {
      ghost var was := Live();
      BufCompact();
      if bufEpos + |data| > buf.Length { BufResize(bufEpos + |data|); }
      BufCopy(data);
      bufEpos := bufEpos + |data|;
    }

    method BufErase(size: nat)
      requires Valid() && size <= bufEpos - bufSpos
      modifies this`bufSpos
      ensures Valid() && Live() == old(Live())[size..]
    {
      bufSpos := bufSpos + size;
    }

    // The arms of the state switch. Each is one round: `done` when the call returns `ok`.

    method InitialBoundary() returns (done: bool, ok: bool)
      requires Valid() && state == 0
      modifies this
      ensures Valid() && buf == old(buf)
      ensures InitialTurn(old(Value()), dashBoundaryCrlf) == if done then Return(ok, Value()) else Continue(Value())
    {
      hide OccursAt, InitialTurn;
      ghost var p, live := Value(), Live();
      var pos := BufFind(dashBoundaryCrlf);
      BufErase(pos);
      FoundFirst(live, dashBoundaryCrlf, pos);
      InitialTurnAt(p, dashBoundaryCrlf);
      if |dashBoundaryCrlf| > BufSize() { return true, true; }
      var at := StartWith(bufSpos, dashBoundaryCrlf);
      if !at { assert false; }
      BufErase(|dashBoundaryCrlf|);
      state := 1;
      return false, true;
    }

    /** Tells the receiver; a refusal marks the body invalid. */
    method Call(event: Event, accept: Receiver) returns (ok: bool)
      requires Valid()
      modifies this`events, this`isValid
      ensures events == old(events) + [event] && ok == accept(events)
      ensures isValid == (ok && old(isValid))
    {
      events := events + [event];
      ok := accept(events);
      if !ok { isValid := false; }
    }

    method EmptyLine(accept: Receiver) returns (ok: bool)
      requires Valid() && 2 <= BufSize()
      modifies this`events, this`isValid, this`bufSpos, this`state
      ensures Valid() && (ok ==> state == 3)
      ensures LineTurn(old(Value()), 0, accept) == if ok then Continue(Value()) else Return(false, Value())
    {
      ok := Call(Part(file), accept);
      if ok {
        BufErase(2);
        state := 3;
      }
    }

    method FieldLine(pos: nat, accept: Receiver) returns (ok: bool)
      requires Valid() && 0 < pos && pos + 2 <= BufSize()
      modifies this`file, this`isValid, this`bufSpos
      ensures Valid()
      ensures LineTurn(old(Value()), pos, accept) == if ok then Continue(Value()) else Return(false, Value())
    {
      var header := buf[bufSpos..bufSpos + pos];
      assert header == Live()[..pos];
      ok, file := ReadPartHeader(header, file);
      if ok { BufErase(pos + 2); } else { isValid := false; }
    }

    method HeaderLines(pos0: nat, accept: Receiver) returns (done: bool, ok: bool)
      requires Valid() && state == 2 && pos0 == Find(Live(), CRLF)
      modifies this
      ensures Valid() && buf == old(buf)
      ensures LinesTurn(old(Value()), accept) == if done then Return(ok, Value()) else Continue(Value())
    {
      hide LinesTurn, LineTurn;
      var pos := pos0;
      while pos < BufSize()
        invariant Valid() && state == 2 && buf == old(buf)
        invariant pos == Find(Live(), CRLF)
        invariant LinesTurn(Value(), accept) == LinesTurn(old(Value()), accept)
        decreases BufSize()
      {
        LinesStep(Value(), accept);
        if pos == 0 {
          ok := EmptyLine(accept);
          return !ok, ok;
        }
        ok := FieldLine(pos, accept);
        if !ok { return true, false; }
        pos := BufFind(CRLF);
      }
      LinesStep(Value(), accept);
      return true, true;
    }

    method Headers(accept: Receiver) returns (done: bool, ok: bool)
      requires Valid() && state == 2
      modifies this
      ensures Valid() && buf == old(buf)
      ensures HeadersTurn(old(Value()), accept) == if done then Return(ok, Value()) else Continue(Value())
    {
      var pos := BufFind(CRLF);
      if pos > HEADER_MAX_LENGTH { return true, false; }
      done, ok := HeaderLines(pos, accept);
    }

    /** Hands over the first `len` body bytes and drops them with the `extra` behind them. */
    method Deliver(len: nat, extra: nat, accept: Receiver) returns (ok: bool)
      requires Valid() && len + extra <= BufSize()
      modifies this`events, this`isValid, this`bufSpos
      ensures Valid() && events == old(events) + [Data(old(Live())[..len])] && ok == accept(events)
      ensures isValid == (ok && old(isValid))
      ensures Live() == if ok then old(Live())[len + extra..] else old(Live())
    {
      var data := buf[bufSpos..bufSpos + len];
      assert data == Live()[..len];
      ok := Call(Data(data), accept);
      if ok { BufErase(len + extra); }
    }

    method Body(accept: Receiver) returns (done: bool, ok: bool)
      requires Valid() && state == 3
      modifies this`events, this`isValid, this`bufSpos, this`state
      ensures Valid()
      ensures BodyTurn(old(Value()), crlfDashBoundary, accept)
              == if done then Return(ok, Value()) else Continue(Value())
    {
      hide Find;
      if |crlfDashBoundary| > BufSize() { return true, true; }
      var pos := BufFind(crlfDashBoundary);
      if pos < BufSize() {
        ok := Deliver(pos, |crlfDashBoundary|, accept);
        done := !ok;
        if ok { state := 4; }
      } else {
        done, ok := true, true;
        var len := BufSize() - |crlfDashBoundary|;
        if len > 0 { ok := Deliver(len, 0, accept); }
      }
    }

    method Boundary() returns (done: bool, ok: bool)
      requires Valid() && state == 4
      modifies this
      ensures Valid() && buf == old(buf)
      ensures BoundaryTurn(old(Value())) == if done then Return(ok, Value()) else Continue(Value())
    {
      if 2 > BufSize() { return true, true; }
      var crlf := StartWith(bufSpos, CRLF);
      if crlf {
        BufErase(2);
        state := 1;
        return false, true;
      }
      var dash := StartWith(bufSpos, DASH);
      if dash {
        BufErase(2);
        isValid := true;
        BufErase(BufSize());
        return false, true;
      }
      return true, true;
    }

    /** The state switch: one round of the loop. */
    method Step(accept: Receiver) returns (done: bool, ok: bool)
      requires Valid()
      modifies this
      ensures Valid() && buf == old(buf)
      ensures Round(old(Value()), dashBoundaryCrlf, crlfDashBoundary, accept) ==
              if done then Return(ok, Value()) else Continue(Value())
    {
      done, ok := false, true;
      if state == 0 {
        done, ok := InitialBoundary();
      } else if state == 1 {
        file := NO_FILE;
        state := 2;
      } else if state == 2 {
        done, ok := Headers(accept);
      } else if state == 3 {
        done, ok := Body(accept);
      } else {
        done, ok := Boundary();
      }
    }

    /** One call with a fragment: the in-place parser does what the value-level one does. */
    method Parse(data: string, accept: Receiver) returns (ok: bool)
      requires Valid()
      modifies this, buf
      ensures Valid() && (buf == old(buf) || fresh(buf))
      ensures (ok, Value()) ==
              Run(old(Value()).(live := old(Live()) + data), dashBoundaryCrlf, crlfDashBoundary, accept)
    {
      hide HeadersTurn, BodyTurn, BoundaryTurn;
      BufAppend(data);
      ghost var start := Value();
      while BufSize() > 0
        invariant Valid() && (buf == old(buf) || fresh(buf))
        invariant Run(Value(), dashBoundaryCrlf, crlfDashBoundary, accept) ==
                  Run(start, dashBoundaryCrlf, crlfDashBoundary, accept)
        decreases BufSize(), if state == 1 then 1 else 0
      {
        var done;
        done, ok := Step(accept);
        if done { return; }
      }
      ok := true;
    }
  }

  /** The server's read loop: every piece of the body goes to the parser until one fails. */
  method ReadMultipart(parser: MultipartFormDataParser, fragments: seq<string>, accept: Receiver) returns (ok: bool)
    requires parser.Valid()
    modifies parser, parser.buf
    ensures parser.Valid()
    ensures (ok, parser.Value()) ==
            Feed(old(parser.Value()), parser.dashBoundaryCrlf, parser.crlfDashBoundary, accept, fragments)
  {
    var i := 0;
    ghost var o, d := parser.dashBoundaryCrlf, parser.crlfDashBoundary;
    assert fragments[0..] == fragments;
    while i < |fragments|
      invariant 0 <= i <= |fragments| && parser.Valid() && (parser.buf == old(parser.buf) || fresh(parser.buf))
      invariant Feed(parser.Value(), o, d, accept, fragments[i..]) == Feed(old(parser.Value()), o, d, accept, fragments)
    {
      ghost var rest := fragments[i..];
      assert rest[0] == fragments[i] && rest[1..] == fragments[i + 1..];
      ok := parser.Parse(fragments[i], accept);
      if !ok { return; }
      i := i + 1;
    }
    ok := true;
  }

  lemma NotAt(live: string, s: string, j: nat)
    requires s != "" && j < |live| && live[j] != s[0]
    ensures !OccursAt(live, s, j)
  {
    if j + |s| <= |live| { assert live[j..j + |s|][0] == live[j]; }
  }
}
