/**
 dialSocksProxy: the SOCKS5 client of the gateway, from the greeting to the tunnel.
 */
module Dialler {
  import opened Wrappers
  import opened Bytes
  import opened Streams
  import opened Socks

  const GREETING: seq<byte> := [0x05, 0x01, 0x00]

  /** The first answer: a method choice that asks for no authentication. */
  predicate Chosen(s: seq<byte>) {
    |s| >= 2 && s[0] == 0x05 && s[1] == 0x00
  }

  /** The final answer: a reply without error, read up to the end of its bound address. */
  function ParseReply(s: seq<byte>): Option<seq<byte>> {
    if |s| < 4 || s[0] != 0x05 || s[1] != 0x00 then None
    else
      match ParseAddress(s[3..])
      case None => None
      case Some((_, rest)) => Some(rest)
  }

  lemma RepliesSplit(s: seq<byte>)
    requires Chosen(s)
    ensures ParseReplies(s) == ParseReply(s[2..])
  {
    hide ParseAddress;
    if |s| >= 6 {
      assert s[2..][3..] == s[5..];
    }
  }

  /** Where the bound address ends, by its type. */
  lemma BoundEnds(s: seq<byte>, n: nat)
    requires |s| >= 1
    requires s[0] == 0x01 ==> n == 4 + 2
    requires s[0] == 0x04 ==> n == 16 + 2
    requires s[0] == 0x03 ==> |s| >= 2 && n == 1 + s[1] as int + 2
    requires s[0] == 0x01 || s[0] == 0x04 || s[0] == 0x03
    ensures ParseAddress(s).Some? <==> |s| >= 1 + n
    ensures ParseAddress(s).Some? ==> ParseAddress(s).value.1 == s[1 + n..]
  {
  }

  /** Reads the reply header, and then as much address as its type says. */
  method ReadReply(conn: Conn) returns (ok: bool)
    modifies conn`incoming
    ensures ok <==> ParseReply(old(conn.incoming)).Some?
    ensures ok ==> conn.incoming == ParseReply(old(conn.incoming)).value
  {
    ghost var all := conn.incoming;
    var resp, skipped;
    ok, resp := conn.ReadFull(4);
    if !ok {
      return;
    }
    assert resp == all[..4] && conn.incoming == all[4..];
    if resp[0] != 0x05 || resp[1] != 0x00 {
      return false;
    }
    var addrLen := 0;
    ghost var lead := 0;
    if resp[3] == 0x01 {
      addrLen := 4;
    } else if resp[3] == 0x04 {
      addrLen := 16;
    } else if resp[3] == 0x03 {
      var lenByte;
      ok, lenByte := conn.ReadFull(1);
      if !ok {
        return;
      }
      assert lenByte[0] == all[4] && conn.incoming == all[5..];
      addrLen, lead := lenByte[0] as int, 1;
    } else {
      return false;
    }
    assert conn.incoming == all[4 + lead..] && all[3..][0] == resp[3];
    BoundEnds(all[3..], lead + addrLen + 2);
    ghost var rest := conn.incoming;
    ok, skipped := conn.ReadFull(addrLen + 2);
    if ok {
      assert conn.incoming == rest[addrLen + 2..] == all[3..][1 + (lead + addrLen + 2)..];
    }
  }

  /**
   The whole dial.  It succeeds exactly if the destination can be requested and the proxy's answers
   are a method choice and a reply without error; the connection then stands at the first byte of the
   tunnel, and the proxy has been sent the greeting and the request.
   */
  method DialSocksProxy(conn: Conn, d: Dest) returns (ok: bool)
    requires d.host.Domain? || ProperHost(d.host)
    modifies conn
    ensures ok <==> !(d.host.Domain? && |d.host.name| > 255) && ParseReplies(old(conn.incoming)).Some?
    ensures ok ==> conn.incoming == ParseReplies(old(conn.incoming)).value
    ensures if !(d.host.Domain? && |d.host.name| > 255) && Chosen(old(conn.incoming))
            then ProperHost(Norm(d.host)) &&
                 conn.outgoing == old(conn.outgoing) + (GREETING + EncodeRequest(Dest(Norm(d.host), d.port % 65536)))
            else conn.outgoing == old(conn.outgoing) + GREETING
  {
    hide ParseReply;
    hide EncodeRequest;
    ghost var all, sent := conn.incoming, conn.outgoing;
    conn.Write(GREETING);
    var auth;
    ok, auth := conn.ReadFull(2);
    if !ok {
      return;
    }
    assert auth == all[..2] && conn.incoming == all[2..];
    if auth[0] != 0x05 || auth[1] != 0x00 {
      return false;
    }
    RepliesSplit(all);
    hide ParseReplies;
    var req := BuildRequest(d);
    if req.None? {
      return false;
    }
    conn.Write(req.value);
    assert conn.outgoing == sent + (GREETING + req.value);
    ok := ReadReply(conn);
  }
}
