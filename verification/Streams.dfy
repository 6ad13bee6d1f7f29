/**
 A network connection that delivers its bytes in pieces of any size, and the bufio.Reader that
 the proxy puts in front of it.
 */
module Streams {
  import opened Bytes

  /** The default size of a bufio.Reader. */
  const BUFFER: nat := 4096

  class Conn {
    /** What the peer has sent and this side has not read yet; after it comes the end of the stream. */
    var incoming: seq<byte>
    var outgoing: seq<byte>

    constructor (incoming: seq<byte>)
      ensures this.incoming == incoming && outgoing == []
    {
      this.incoming, outgoing := incoming, [];
    }

    /** One Read: any non-empty piece that fits, or nothing at the end. */
    method Read(max: nat) returns (out: seq<byte>)
      modifies this`incoming
      ensures |out| <= max && out + incoming == old(incoming)
      ensures out == [] ==> max == 0 || incoming == []
    {
      if max == 0 || |incoming| == 0 {
        return [];
      }
      var n: nat := *;
      n := 1 + n % Min(max, |incoming|);
      out := incoming[..n];
      incoming := incoming[n..];
    }

    /** io.ReadFull on the connection itself: exactly k bytes, or failure at the end of the stream. */
    method ReadFull(k: nat) returns (ok: bool, out: seq<byte>)
      modifies this`incoming
      ensures ok <==> |old(incoming)| >= k
      ensures ok ==> |out| == k && out + incoming == old(incoming)
    {
      out := [];
      while |out| < k
        invariant |out| <= k && out + incoming == old(incoming)
        decreases k - |out|
      {
        var more := Read(k - |out|);
        if |more| == 0 {
          return false, out;
        }
        out := out + more;
      }
      ok := true;
    }

    method Write(data: seq<byte>)
      modifies this`outgoing
      ensures outgoing == old(outgoing) + data
    {
      outgoing := outgoing + data;
    }
  }

  /** How fillBuffer ends.  Peek(1) fetches nothing while a byte is buffered, so it can spin for ever. */
  datatype Fill = Ready | AtEnd | Spins

  class Reader {
    const conn: Conn
    var buffered: seq<byte>

    ghost predicate Valid()
      reads this
    {
      |buffered| <= BUFFER
    }

    /** All bytes that are still to be read from here. */
    ghost function Pending(): seq<byte>
      reads this, conn
    {
      buffered + conn.incoming
    }

    constructor (conn: Conn)
      ensures this.conn == conn && buffered == [] && Valid()
    {
      this.conn, buffered := conn, [];
    }

    /** Into an empty buffer, unless the caller asks for a whole buffer, which is read directly. */
    method Read(want: nat) returns (out: seq<byte>)
      requires Valid()
      modifies this, conn`incoming
      ensures Valid() && |out| <= want && out + Pending() == old(Pending())
      ensures out == [] ==> want == 0 || Pending() == []
      ensures want >= BUFFER ==> buffered == []
    {
      if want == 0 {
        return [];
      }
      if |buffered| == 0 {
        if want >= BUFFER {
          out := conn.Read(want);
          return;
        }
        buffered := conn.Read(BUFFER);
      }
      var n := Min(want, |buffered|);
      ghost var was := buffered;
      out := buffered[..n];
      buffered := buffered[n..];
      assert was == out + buffered;
    }

    /** io.ReadFull: exactly k bytes, or failure at the end of the stream. */
    method ReadFull(k: nat) returns (ok: bool, out: seq<byte>)
      requires Valid()
      modifies this, conn`incoming
      ensures Valid() && (ok <==> |old(Pending())| >= k)
      ensures ok ==> |out| == k && out + Pending() == old(Pending())
    {
      out := [];
      while |out| < k
        invariant Valid() && |out| <= k
        invariant out + Pending() == old(Pending())
        decreases k - |out|
      {
        var more := Read(k - |out|);
        if |more| == 0 {
          return false, out;
        }
        out := out + more;
      }
      ok := true;
    }

    /** fillBuffer: waits until n bytes are buffered. */
    method FillBuffer(n: nat) returns (r: Fill)
      requires Valid()
      modifies this, conn`incoming
      ensures Valid() && Pending() == old(Pending())
      ensures old(buffered) != [] ==> buffered == old(buffered)
      ensures r == Ready <==> |buffered| >= n
      ensures r == AtEnd ==> Pending() == []
      ensures r == Spins ==> 0 < |buffered| < n
    {
      if |buffered| >= n {
        return Ready;
      }
      if |buffered| == 0 {
        buffered := conn.Read(BUFFER);
        if |buffered| == 0 {
          return AtEnd;
        }
      }
      r := if |buffered| >= n then Ready else Spins;
    }

    /** io.Copy out of the reader: what is buffered, then the rest of the connection. */
    method CopyTo(to: Conn)
      requires Valid() && to != conn
      modifies this, conn`incoming, to`outgoing
      ensures Valid() && Pending() == [] && to.outgoing == old(to.outgoing) + old(Pending())
    {
      to.Write(buffered);
      buffered := [];
      CopyAll(conn, to);
    }
  }

  /** io.Copy between raw connections. */
  method CopyAll(from: Conn, to: Conn)
    requires from != to
    modifies from`incoming, to`outgoing
    ensures from.incoming == [] && to.outgoing == old(to.outgoing) + old(from.incoming)
  {
    while true
      invariant to.outgoing + from.incoming == old(to.outgoing) + old(from.incoming)
      decreases |from.incoming|
    {
      var piece := from.Read(32768);
      if |piece| == 0 {
        return;
      }
      to.Write(piece);
    }
  }
}
