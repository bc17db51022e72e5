/** Byte streams over a socket, with reads and writes that may be short or fail. */
module Streams {
  import opened Bytes

  const READ_BUFF_SIZE := 4096
  const RECV_BUFSIZ := 16384

  /** Any number in a range: the amount a system call happens to transfer. */
  method Choose(lo: nat, hi: nat) returns (k: nat)
    requires lo <= hi
    ensures lo <= k <= hi
  {
    k := *;
    if k < lo || hi < k { k := hi; }
  }

  // ------------------------------------------------------------------- reading

  /** The reading side of a connection. `wire` holds the bytes the peer has sent and will
      send before it closes; `mayFail` allows timeouts and receive errors. */
  class SocketStream {
    var wire: string
    const mayFail: bool
    const readBuff: array<char>
    var readBuffOff: nat
    var readBuffContentSize: nat

    ghost predicate Valid()
      reads this
    {
      readBuff.Length == READ_BUFF_SIZE && readBuffContentSize <= READ_BUFF_SIZE
      && readBuffOff <= readBuffContentSize
    }

    /** Everything still to be returned to readers, in order. */
    ghost function Pending(): string
      requires Valid()
      reads this, readBuff
    {
      readBuff[readBuffOff..readBuffContentSize] + wire
    }

    constructor (wire: string, mayFail: bool)
      ensures Valid() && Pending() == wire && this.mayFail == mayFail && fresh(readBuff)
    {
      this.wire, this.mayFail := wire, mayFail;
      readBuff := new char[READ_BUFF_SIZE];
      readBuffOff, readBuffContentSize := 0, 0;
    }

    /** One receive call: an error, the end of the stream, or at least one byte. */
    method ReadSocket(max: nat) returns (n: int, data: string)
      requires max > 0
      modifies this`wire
      ensures n < 0 ==> mayFail && wire == old(wire)
      ensures n >= 0 ==> |data| == n <= max && old(wire) == data + wire && (n == 0 ==> old(wire) == "")
    {
      if mayFail {
        if * { return -1, ""; }
      }
      var k := Choose(if wire == "" then 0 else 1, if |wire| < max then |wire| else max);
      n, data := k, wire[..k];
      wire := wire[k..];
    }

    method ReadBuffered(size: nat) returns (n: int, data: string)
      requires Valid() && size > 0 && readBuffOff < readBuffContentSize
      modifies this`readBuffOff
      ensures Valid() && 0 < n == |data| <= size && old(Pending()) == data + Pending()
    {
      var remaining := readBuffContentSize - readBuffOff;
      n := if size <= remaining then size else remaining;
      data := readBuff[readBuffOff..readBuffOff + n];
      readBuffOff := readBuffOff + n;
    }

    method Read(size: nat) returns (n: int, data: string)
      requires Valid() && size > 0
      modifies this`wire, this`readBuffOff, this`readBuffContentSize, readBuff
      ensures Valid()
      ensures n < 0 ==> mayFail && Pending() == old(Pending())
      ensures n >= 0 ==> |data| == n <= size && old(Pending()) == data + Pending()
      ensures n == 0 ==> old(Pending()) == ""
    {
      if readBuffOff < readBuffContentSize {
        n, data := ReadBuffered(size);
        return;
      }
      if mayFail {
        if * { return -1, ""; }
      }
      readBuffOff, readBuffContentSize := 0, 0;
      if size < READ_BUFF_SIZE {
        var received;
        n, received := ReadSocket(READ_BUFF_SIZE);
        if n <= 0 { return n, ""; }
        for i := 0 to n
          invariant readBuff[..i] == received[..i]
          modifies readBuff
        {
          readBuff[i] := received[i];
        }
        if n <= size {
          data := received;
          assert readBuff[0..0] + wire == wire;
        } else {
          data := received[..size];
          assert readBuff[size..n] == readBuff[..n][size..];
          Append3(data, received[size..], wire);
          assert received == data + received[size..];
          readBuffOff, readBuffContentSize := size, n;
          return size, data;
        }
      } else {
        n, data := ReadSocket(size);
        assert readBuff[0..0] + wire == wire;
      }
    }

    /** Any sequence of reads hands out the stream in order, without loss or repetition. */
    method ReadMany(sizes: seq<nat>) returns (got: string)
      requires Valid() && forall i :: 0 <= i < |sizes| ==> sizes[i] > 0
      modifies this`wire, this`readBuffOff, this`readBuffContentSize, readBuff
      ensures Valid() && old(Pending()) == got + Pending()
    {
      got := "";
      for i := 0 to |sizes|
        invariant Valid() && old(Pending()) == got + Pending()
      {
        var n, data := Read(sizes[i]);
        if n >= 0 {
          Append3(got, data, Pending());
          got := got + data;
        }
      }
    }
  }

  // ------------------------------------------------------------------- writing

  /** The writing side. `fullWrites` holds for the buffer stream, which takes everything;
      a socket may take less than it is given, but never nothing. */
  class OutStream {
    var written: string
    const mayFail: bool
    const fullWrites: bool

    constructor (mayFail: bool, fullWrites: bool)
      ensures written == "" && this.mayFail == mayFail && this.fullWrites == fullWrites
    {
      written, this.mayFail, this.fullWrites := "", mayFail, fullWrites;
    }

    method Write(data: string) returns (n: int)
      modifies this
      ensures n < 0 ==> mayFail && written == old(written)
      ensures n >= 0 ==> n <= |data| && written == old(written) + data[..n]
      ensures n >= 0 && fullWrites ==> n == |data|
      ensures n == 0 ==> data == ""
    {
      if mayFail {
        if * { return -1; }
      }
      var k := Choose(if fullWrites || data == "" then |data| else 1, |data|);
      written := written + data[..k];
      n := k;
    }
  }

  /** Repeats short writes until everything is out or the stream fails. */
  method WriteData(strm: OutStream, data: string) returns (ok: bool)
    modifies strm
    ensures ok ==> strm.written == old(strm.written) + data
    ensures !ok ==> strm.mayFail && exists k :: 0 <= k <= |data| && strm.written == old(strm.written) + data[..k]
  {
    var offset := 0;
    while offset < |data|
      invariant 0 <= offset <= |data|
      invariant strm.written == old(strm.written) + data[..offset]
    {
      var rest := data[offset..];
      var length := strm.Write(rest);
      if length < 0 { return false; }
      assert data[..offset] + rest[..length] == data[..offset + length];
      offset := offset + length;
    }
    assert data[..offset] == data;
    ok := true;
  }

  // ------------------------------------------------------- bodies of known length

  /** The server's plain body receiver: it takes bytes up to a limit. */
  class BodyReceiver {
    var received: string
    const limit: nat

    constructor (limit: nat)
      ensures received == "" && this.limit == limit
    {
      received, this.limit := "", limit;
    }

    method Out(data: string) returns (ok: bool)
      modifies this
      ensures ok <==> |old(received)| + |data| <= limit
      ensures received == if ok then old(received) + data else old(received)
    {
      ok := |received| + |data| <= limit;
      if ok { received := received + data; }
    }
  }

  lemma Passed(pending: string, r: nat, data: string, rest: string)
    requires r <= |pending| && pending[r..] == data + rest
    ensures r + |data| <= |pending| && rest == pending[r + |data|..]
    ensures pending[..r] + data == pending[..r + |data|]
  {
    assert pending == pending[..r] + (data + rest);
    Append3(pending[..r], data, rest);
  }

  method ReadContentWithLength(strm: SocketStream, len: nat, out: BodyReceiver) returns (ok: bool)
    requires strm.Valid() && |out.received| <= out.limit
    modifies strm, strm.readBuff, out
    ensures strm.Valid() && |out.received| <= out.limit
    ensures ok ==> len <= |old(strm.Pending())| && |old(out.received)| + len <= out.limit
    ensures ok ==> out.received == old(out.received) + old(strm.Pending())[..len]
                   && strm.Pending() == old(strm.Pending())[len..]
    ensures !strm.mayFail && len <= |old(strm.Pending())| && |old(out.received)| + len <= out.limit ==> ok
    ensures !ok ==> exists k :: 0 <= k <= len && k <= |old(strm.Pending())|
                                && out.received == old(out.received) + old(strm.Pending())[..k]
  {
    ghost var pending := strm.Pending();
    var r := 0;
    while r < len
      invariant strm.Valid() && 0 <= r <= len && r <= |pending|
      invariant strm.Pending() == pending[r..]
      invariant out.received == old(out.received) + pending[..r] && |out.received| <= out.limit
    {
      var left := len - r;
      var n, data := strm.Read(if left < RECV_BUFSIZ then left else RECV_BUFSIZ);
      if n <= 0 { return false; }
      var taken := out.Out(data);
      if !taken { return false; }
      Passed(pending, r, data, strm.Pending());
      Append3(old(out.received), pending[..r], data);
      r := r + n;
    }
    ok := true;
  }
}
