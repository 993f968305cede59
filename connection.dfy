// The buffered reader of a TCP scanner connection (connection.c): a
// 2048-byte buffer holding the bytes received but not yet consumed between
// `buf_position` and `buf_filled`. `peek` makes room by moving the unread
// bytes to the front, then receives at most once; `read` is a peek that
// also consumes. The socket is abstracted: what one recv() call would
// deliver is a parameter, `None` when the call fails.

module Connection {

  import opened Bytes

  /** BROTHER_CONN_READ_BUFSIZE */
  const BUFSIZE: nat := 2048

  /** One more than the largest size_t. */
  const SIZE_MODULUS: nat := 0x1_0000_0000_0000_0000

  /** What recv(fd, p, room) hands over of the bytes waiting on the socket:
      as many as fit, in arrival order. */
  function Take(waiting: seq<byte>, room: nat): (r: seq<byte>)
    ensures |r| == Min(|waiting|, room)
    ensures r <= waiting
  {
    if |waiting| <= room then waiting else waiting[..room]
  }

  /** The room recv() is offered by peek(len): after the compaction that
      happens when fewer than len bytes are left behind position, the space
      behind the unread bytes. */
  function Room(position: nat, filled: nat, len: nat): (r: nat)
    requires position <= filled <= BUFSIZE
    ensures r <= BUFSIZE
    ensures BUFSIZE - position < len ==> r == BUFSIZE - (filled - position)
    ensures BUFSIZE - position >= len ==> r == BUFSIZE - filled
  {
    if BUFSIZE - position < len then BUFSIZE - (filled - position) else BUFSIZE - filled
  }

  /** The unread bytes after peek(len) accepted the request: one receive is
      appended when fewer than len bytes were buffered and it succeeded. */
  function AfterPeek(unread: seq<byte>, len: nat, incoming: Option<seq<byte>>, room: nat): (r: seq<byte>)
  {
    if |unread| < len && incoming.Some? then unread + Take(incoming.value, room) else unread
  }

  /** Peeking never loses or reorders buffered bytes, and receives nothing
      when len bytes were already there. */
  lemma AfterPeekExtends(unread: seq<byte>, len: nat, incoming: Option<seq<byte>>, room: nat)
    ensures unread <= AfterPeek(unread, len, incoming, room)
    ensures |unread| >= len ==> AfterPeek(unread, len, incoming, room) == unread
    ensures |unread| < len && incoming.None? ==> AfterPeek(unread, len, incoming, room) == unread
  {
  }

  /** The first m elements of a slice. */
  lemma SlicePrefix(a: seq<byte>, i: nat, j: nat, m: nat)
    requires i + m <= j <= |a|
    ensures a[i..j][..m] == a[i..i + m]
  {
  }

  /** The buffered part of a `struct brother_conn`. */
  class Conn {
    /** type == BROTHER_CONNECTION_TYPE_TCP */
    const tcp: bool
    const buf: array<byte>
    var position: nat
    var filled: nat

    ghost predicate Valid()
      reads this
    {
      buf.Length == BUFSIZE && position <= filled <= BUFSIZE
    }

    /** The bytes received but not consumed, in arrival order. */
    function Unread(): (r: seq<byte>)
      reads this, buf
      requires Valid()
      ensures |r| == filled - position
    {
      buf[position..filled]
    }

    /** brother_conn_data_available: filled - position in size_t arithmetic. */
    function DataAvailable(): (n: nat)
      reads this
      ensures n < SIZE_MODULUS
      ensures position <= filled < SIZE_MODULUS ==> n == filled - position
      ensures position > filled && position - filled < SIZE_MODULUS ==>
        n == SIZE_MODULUS - (position - filled)
    {
      (filled - position) % SIZE_MODULUS
    }

    /** A connection whose buffer create_socket just calloc'ed. */
    constructor(tcp: bool)
      ensures this.tcp == tcp && Valid() && fresh(buf)
      ensures position == 0 && filled == 0 && Unread() == []
    {
      this.tcp := tcp;
      buf := new byte[BUFSIZE];
      position, filled := 0, 0;
    }

    /** The compaction step of peek: the unread bytes move to the front of
        the buffer, position becomes 0; what is unread does not change. */
    method Compact()
      requires Valid()
      modifies this, buf
      ensures Valid() && position == 0 && filled == old(filled - position)
      ensures Unread() == old(Unread())
    {
      var p, available := position, filled - position;
      var k := 0;
      while k < available
        invariant k <= available
        invariant buf[..k] == old(buf[p..p + k])
        invariant buf[k..] == old(buf[k..])
      {
        buf[k] := buf[p + k];
        k := k + 1;
      }
      position, filled := 0, available;
    }

    /** The receive step of peek: what recv() delivered is written behind the
        unread bytes and filled advances over it. */
    method Receive(incoming: Option<seq<byte>>) returns (ok: bool)
      requires Valid()
      modifies this, buf
      ensures Valid() && position == old(position)
      ensures ok <==> incoming.Some?
      ensures Unread() == old(Unread()) + if ok then Take(incoming.value, BUFSIZE - old(filled)) else []
    {
      if incoming.None? {
        return false;
      }
      var chunk := Take(incoming.value, BUFSIZE - filled);
      Append(chunk);
      ok := true;
    }

    /** The bytes recv() delivered land behind the unread ones, and filled
        advances over them. */
    method Append(chunk: seq<byte>)
      requires Valid() && filled + |chunk| <= BUFSIZE
      modifies this, buf
      ensures Valid() && position == old(position) && filled == old(filled) + |chunk|
      ensures Unread() == old(Unread()) + chunk
    {
      var f := filled;
      var k := 0;
      while k < |chunk|
        invariant k <= |chunk|
        invariant position == old(position) && filled == f
        invariant buf[..f] == old(buf[..f])
        invariant buf[f..f + k] == chunk[..k]
      {
        buf[f + k] := chunk[k];
        k := k + 1;
      }
      assert buf[..f + |chunk|] == old(buf[..f]) + chunk;
      filled := f + |chunk|;
      assert Unread() == buf[..filled][position..];
    }

    /** brother_conn_peek: refused (NULL) on a UDP connection or above 2048
        bytes; otherwise room is made for len bytes, at most one receive is
        attempted when fewer than len are buffered, and the result is NULL
        only when that receive fails. Success does not promise len bytes. */
    method Peek(len: nat, incoming: Option<seq<byte>>) returns (ok: bool)
      requires Valid()
      modifies this, buf
      ensures Valid()
      ensures !tcp || len > BUFSIZE ==>
        !ok && position == old(position) && filled == old(filled) && buf[..] == old(buf[..])
      ensures tcp && len <= BUFSIZE ==>
        (ok <==> old(filled - position) >= len || incoming.Some?) &&
        Unread() == AfterPeek(old(Unread()), len, incoming, Room(old(position), old(filled), len)) &&
        position == (if BUFSIZE - old(position) < len then 0 else old(position))
      ensures ok ==> position + len <= BUFSIZE
    {
      if !tcp || BUFSIZE < len {
        return false;
      }
      if BUFSIZE - position < len {
        Compact();
      }
      if filled - position < len {
        ok := Receive(incoming);
      } else {
        ok := true;
      }
    }

    /** brother_conn_read as it is written: a successful peek is followed by
        position += len, whether or not len bytes arrived. */
    method ReadAsWritten(len: nat, incoming: Option<seq<byte>>) returns (r: Option<seq<byte>>)
      requires Valid()
      modifies this, buf
      ensures buf.Length == BUFSIZE && filled <= BUFSIZE
      ensures r.None? ==> Valid()
      ensures r.Some? <==> tcp && len <= BUFSIZE && (old(filled - position) >= len || incoming.Some?)
      ensures r.Some? ==>
        var start := if BUFSIZE - old(position) < len then 0 else old(position);
        var u := AfterPeek(old(Unread()), len, incoming, Room(old(position), old(filled), len));
        |r.value| == len && position == start + len && filled == start + |u| &&
        r.value[..Min(len, |u|)] == u[..Min(len, |u|)]
    {
      ghost var before, room := Unread(), Room(position, filled, len);
      ghost var start := if BUFSIZE - position < len then 0 else position;
      var ok := Peek(len, incoming);
      if !ok {
        return None;
      }
      assert Unread() == AfterPeek(before, len, incoming, room) && position == start;
      var bytes := Consume(len);
      r := Some(bytes);
    }

    /** The tail of brother_conn_read: the len bytes from position are handed
        out and position moves past them, even beyond filled. */
    method Consume(len: nat) returns (bytes: seq<byte>)
      requires Valid() && position + len <= BUFSIZE
      modifies this
      ensures buf.Length == BUFSIZE && filled == old(filled) && position == old(position) + len
      ensures |bytes| == len
      ensures bytes[..Min(len, |old(Unread())|)] == old(Unread())[..Min(len, |old(Unread())|)]
      ensures |old(Unread())| >= len ==> Valid() && bytes == old(Unread())[..len] && Unread() == old(Unread())[len..]
    {
      ghost var m := Min(len, filled - position);
      bytes := buf[position..position + len];
      SlicePrefix(buf[..], position, position + len, m);
      SlicePrefix(buf[..], position, filled, m);
      position := position + len;
    }

    /** brother_conn_read as intended: the len bytes come out only when they
        are all there; otherwise nothing is consumed and what arrived stays
        buffered. */
    method Read(len: nat, incoming: Option<seq<byte>>) returns (r: Option<seq<byte>>)
      requires Valid()
      modifies this, buf
      ensures Valid()
      ensures !tcp || len > BUFSIZE ==> r.None? && Unread() == old(Unread())
      ensures tcp && len <= BUFSIZE ==>
        var u := AfterPeek(old(Unread()), len, incoming, Room(old(position), old(filled), len));
        var start := if BUFSIZE - old(position) < len then 0 else old(position);
        (r.Some? <==> |u| >= len) &&
        (r.Some? ==> r.value == u[..len] && Unread() == u[len..] && position == start + len) &&
        (r.None? ==> Unread() == u && position == start)
    {
      ghost var before, room := Unread(), Room(position, filled, len);
      var ok := Peek(len, incoming);
      assert tcp && len <= BUFSIZE ==> Unread() == AfterPeek(before, len, incoming, room);
      if !ok || filled - position < len {
        return None;
      }
      var bytes := Consume(len);
      r := Some(bytes);
    }

    /** brother_conn_fill_buffer as it is written: nothing to do when size
        bytes are buffered, -1 when poll fails, otherwise a peek for the
        missing size - available bytes, which receives only when even fewer
        than that are buffered. */
    method FillBufferAsWritten(size: nat, pollFails: bool, incoming: Option<seq<byte>>) returns (rc: int)
      requires Valid()
      modifies this, buf
      ensures Valid() && (position == old(position) || position == 0)
      ensures old(filled - position) >= size ==> rc == 0 && Unread() == old(Unread())
      ensures tcp && old(filled - position) < size <= BUFSIZE && !pollFails ==>
        var missing := size - old(filled - position);
        Unread() == AfterPeek(old(Unread()), missing, incoming, Room(old(position), old(filled), missing)) &&
        (rc == 0 <==> old(filled - position) >= missing || incoming.Some?)
    {
      if filled - position >= size {
        return 0;
      }
      if pollFails {
        return -1;
      }
      var ok := Peek(size - (filled - position), incoming);
      rc := if ok then 0 else -1;
    }

    /** brother_conn_fill_buffer as intended: when fewer than size bytes are
        buffered it receives once, and it succeeds only with size bytes
        buffered. */
    method FillBuffer(size: nat, pollFails: bool, incoming: Option<seq<byte>>) returns (rc: int)
      requires Valid()
      modifies this, buf
      ensures Valid() && (position == old(position) || position == 0)
      ensures rc == 0 || rc == -1
      ensures rc == 0 <==> filled - position >= size
      ensures old(filled - position) >= size ==> Unread() == old(Unread())
      ensures tcp && old(filled - position) < size <= BUFSIZE && !pollFails ==>
        Unread() == AfterPeek(old(Unread()), size, incoming, Room(old(position), old(filled), size))
      ensures (!tcp || size > BUFSIZE || pollFails) ==> Unread() == old(Unread())
    {
      if filled - position >= size {
        return 0;
      }
      if pollFails {
        return -1;
      }
      var ok := Peek(size, incoming);
      rc := if ok && filled - position >= size then 0 else -1;
    }
  }

  // The bytes of "ABCD…L" spelled out: 'A' is 65.

  /** The chunked reads of connection_test.cpp: "ABCD" arrives, two bytes
      are read, "EFGH" arrives, four are read, "IJKL" arrives during a read
      of four; the bytes come out in the order they arrived. */
  method ChunkedReads() returns (first: seq<byte>, second: seq<byte>, third: seq<byte>)
    ensures first == [65, 66] && second == [67, 68, 69, 70] && third == [71, 72, 73, 74]
  {
    var c := new Conn(true);
    var rc := c.FillBuffer(1, false, Some([65, 66, 67, 68]));
    assert c.Unread() == [65, 66, 67, 68] && c.position == 0;
    var r := c.Read(2, None);
    first := r.value;
    assert c.Unread() == [67, 68] && c.position == 2;
    ArrivalsAppended();
    r := c.Read(4, Some([69, 70, 71, 72]));
    second := r.value;
    assert c.Unread() == [71, 72] && c.position == 6;
    r := c.Read(4, Some([73, 74, 75, 76]));
    third := r.value;
  }

  /** The buffered bytes of ChunkedReads before its second and third reads. */
  lemma ArrivalsAppended()
    ensures AfterPeek([67, 68], 4, Some([69, 70, 71, 72]), Room(2, 4, 4)) == [67, 68, 69, 70, 71, 72]
    ensures AfterPeek([71, 72], 4, Some([73, 74, 75, 76]), Room(6, 8, 4)) == [71, 72, 73, 74, 75, 76]
  {
    assert Take([69, 70, 71, 72], Room(2, 4, 4)) == [69, 70, 71, 72];
    assert Take([73, 74, 75, 76], Room(6, 8, 4)) == [73, 74, 75, 76];
  }

  /** fill_buffer(10) with six bytes buffered asks peek for only four more,
      finds them already there and returns success without receiving. */
  method FillBufferShort() returns (rc: int, available: nat)
    ensures rc == 0 && available == 6
  {
    var c := new Conn(true);
    var ok := c.Peek(6, Some([65, 66, 67, 68, 69, 70]));
    assert c.filled - c.position == 6;
    rc := c.FillBufferAsWritten(10, false, Some([71, 72, 73, 74]));
    available := c.filled - c.position;
  }

  /** The intended fill_buffer in the same situation receives the four
      missing bytes and reports ten buffered. */
  method FillBufferFixed() returns (rc: int, available: nat)
    ensures rc == 0 && available == 10
  {
    var c := new Conn(true);
    var ok := c.Peek(6, Some([65, 66, 67, 68, 69, 70]));
    assert c.filled - c.position == 6 && c.position == 0;
    rc := c.FillBuffer(10, false, Some([71, 72, 73, 74]));
    available := c.filled - c.position;
  }

  /** read(4) when only "AB" arrives succeeds anyway and moves position past
      filled, after which data_available wraps around to 2^64 - 2. */
  method ReadPastFilled() returns (got: nat, available: nat)
    ensures got == 4 && available == SIZE_MODULUS - 2
  {
    var c := new Conn(true);
    var r := c.ReadAsWritten(4, Some([65, 66]));
    assert c.position == 4 && c.filled == 2;
    got := |r.value|;
    available := c.DataAvailable();
  }

  /** The intended read in the same situation returns nothing and keeps the
      two bytes for the next call. */
  method ReadShortKept() returns (failed: bool, kept: seq<byte>)
    ensures failed && kept == [65, 66]
  {
    var c := new Conn(true);
    var r := c.Read(4, Some([65, 66]));
    failed := r.None?;
    kept := c.Unread();
  }
}
