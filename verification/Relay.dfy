/**
 A SOCKS5 request on its way through the gateway and a VLESS strategy: the gateway sniffs the
 target and forwards, the strategy reads the handshake again and sends the rest to the remote end.
 */
module Relay {
  import opened Wrappers
  import opened Bytes
  import opened Streams
  import opened Socks

  // --- the gateway ---

  /** sniffTargetSocks5: the target, an error, or no progress because fillBuffer spins. */
  datatype Sniff = Target(dest: Dest) | Failed | Stuck

  /** Consumes the greeting and answers it; the version byte was looked at before. */
  method ClientHandshake(reader: Reader) returns (ok: bool)
    requires reader.Valid()
    modifies reader, reader.conn
    ensures reader.Valid()
    ensures ok <==> ParseGreeting(old(reader.Pending())).Some?
    ensures ok ==> reader.Pending() == ParseGreeting(old(reader.Pending())).value
    ensures reader.conn.outgoing == old(reader.conn.outgoing) + if ok then [0x05, 0x00] else []
  {
    ghost var all := reader.Pending();
    var header, methods;
    ok, header := reader.ReadFull(2);
    if !ok {
      return;
    }
    assert all[0] == header[0] && all[1] == header[1];
    ghost var rest := reader.Pending();
    assert rest == all[2..];
    ok, methods := reader.ReadFull(header[1] as int);
    if !ok {
      return;
    }
    assert reader.Pending() == rest[|methods|..];
    reader.conn.Write([0x05, 0x00]);
  }

  /** Enough of the stream is buffered to read what the whole stream says. */
  lemma PrefixParses(prefix: seq<byte>, all: seq<byte>)
    requires prefix <= all && ParseAddress(prefix).Some?
    ensures ParseAddress(all).Some? && ParseAddress(all).value.0 == ParseAddress(prefix).value.0
  {
    if prefix[0] == 0x01 {
      assert prefix[1..5] == all[1..5];
    } else if prefix[0] == 0x04 {
      assert prefix[1..17] == all[1..17];
    } else {
      var n := prefix[1] as int;
      assert prefix[2..2 + n] == all[2..2 + n];
    }
  }

  /** A CONNECT request of version 5 at the front of the stream. */
  ghost predicate Acceptable(s: seq<byte>) {
    |s| >= 2 && s[0] == 0x05 && s[1] == 0x01 && ParseRequest(s).Some?
  }

  /** That is: such a request as a client encodes it, with any reserved byte. */
  lemma {:induction false} AcceptableIff(s: seq<byte>)
    ensures Acceptable(s) <==>
            exists reserved: byte, address: seq<byte>, d: Dest, rest: seq<byte> ::
              s == [0x05, 0x01, reserved] + address && StartsAddress(address, d, rest)
  {
    hide ParseAddress;
    hide EncodeAddress;
    if Acceptable(s) {
      var e := AddressSound(s[3..]);
      assert s == [0x05, 0x01, s[2]] + s[3..];
      assert StartsAddress(s[3..], Dest(Norm(e.host), e.port), ParseAddress(s[3..]).value.1);
    }
    if reserved: byte, address: seq<byte>, d: Dest, rest: seq<byte> :|
        s == [0x05, 0x01, reserved] + address && StartsAddress(address, d, rest) {
      assert s[3..] == address;
      var e :| Proper(e) && address == EncodeAddress(e) + rest && d == Dest(Norm(e.host), e.port);
      AddressRoundTrip(e, rest);
    }
  }

  function FillFailure(f: Fill): Sniff
    requires f != Ready
  {
    if f == AtEnd then Failed else Stuck
  }

  /** Peeks at an address of known length; nothing is consumed. */
  method PeekAddress(reader: Reader, size: nat) returns (f: Fill, address: seq<byte>)
    requires reader.Valid()
    modifies reader, reader.conn`incoming
    ensures reader.Valid() && reader.Pending() == old(reader.Pending())
    ensures f == Ready ==> |address| == size && |reader.Pending()| >= size && address == reader.Pending()[..size]
    ensures f == AtEnd ==> reader.Pending() == []
    ensures f == Spins ==> 0 < |reader.buffered| < size
  {
    address := [];
    f := reader.FillBuffer(size);
    if f == Ready {
      address := reader.buffered[..size];
    }
  }

  /** The part of sniffTargetSocks5 behind the greeting: it only peeks. */
  method SniffRequest(reader: Reader) returns (r: Sniff)
    requires reader.Valid()
    modifies reader, reader.conn`incoming
    ensures reader.Valid() && reader.Pending() == old(reader.Pending())
    ensures r != Stuck ==> (r.Target? <==> Acceptable(reader.Pending()))
    ensures r.Target? ==> r.dest == ParseRequest(reader.Pending()).value.1
    ensures r == Stuck ==> reader.buffered != [] && ParseRequest(reader.buffered).None?
  {
    ghost var all := reader.Pending();
    var f, header := PeekAddress(reader, 4);
    if f != Ready {
      return FillFailure(f);
    }
    assert header[0] == all[0] && header[1] == all[1] && header[3] == all[3];
    if header[0] != 0x05 || header[1] != 0x01 {
      return Failed;
    }
    var size;
    if header[3] == 0x01 {
      size := 4 + 4 + 2;
    } else if header[3] == 0x04 {
      size := 4 + 16 + 2;
    } else if header[3] == 0x03 {
      var head;
      f, head := PeekAddress(reader, 5);
      if f != Ready {
        return FillFailure(f);
      }
      assert head[4] == all[4];
      size := 4 + 1 + head[4] as int + 2;
    } else {
      return Failed;
    }
    var full;
    f, full := PeekAddress(reader, size);
    if f != Ready {
      return FillFailure(f);
    }
    assert full == all[..size];
    assert full[3..] == all[3..][..size - 3];
    var parsed := ParseAddress(full[3..]);
    PrefixParses(full[3..], all[3..]);
    r := Target(parsed.value.0);
  }

  /** sniffTargetSocks5 as a whole: the greeting is consumed, the request stays in the reader. */
  method SniffTarget(reader: Reader) returns (r: Sniff)
    requires reader.Valid()
    modifies reader, reader.conn
    ensures reader.Valid()
    ensures ParseGreeting(old(reader.Pending())).None? ==> r == Failed
    ensures ParseGreeting(old(reader.Pending())).Some? ==>
              && reader.Pending() == ParseGreeting(old(reader.Pending())).value
              && reader.conn.outgoing == old(reader.conn.outgoing) + [0x05, 0x00]
              && (r != Stuck ==> (r.Target? <==> Acceptable(reader.Pending())))
              && (r.Target? ==> r.dest == ParseRequest(reader.Pending()).value.1)
              && (r == Stuck ==> reader.buffered != [] && ParseRequest(reader.buffered).None?)
  {
    var ok := ClientHandshake(reader);
    if !ok {
      return Failed;
    }
    r := SniffRequest(reader);
  }

  // --- the strategy ---

  /** n bytes of address, then the port. */
  method ReadFields(reader: Reader, n: nat) returns (ok: bool, address: seq<byte>, port: nat)
    requires reader.Valid()
    modifies reader, reader.conn`incoming
    ensures reader.Valid() && (ok <==> |old(reader.Pending())| >= n + 2)
    ensures ok ==> var s := old(reader.Pending());
                   address == s[..n] && port == U16(s[n], s[n + 1]) && reader.Pending() == s[n + 2..]
  {
    hide U16;
    ghost var s := reader.Pending();
    port := 0;
    ok, address := reader.ReadFull(n);
    if !ok {
      return;
    }
    assert address == s[..n] && reader.Pending() == s[n..];
    var two;
    ok, two := reader.ReadFull(2);
    if ok {
      assert two[0] == s[n] && two[1] == s[n + 1];
      port := U16(two[0], two[1]);
    }
  }

  /** Reads an address as HandshakeSocks5AndGetResponse does: field by field, behind the type byte. */
  method ReadAddress(reader: Reader, kind: byte) returns (ok: bool, dest: Dest)
    requires reader.Valid()
    modifies reader, reader.conn`incoming
    ensures reader.Valid()
    ensures ok <==> ParseAddress([kind] + old(reader.Pending())).Some?
    ensures ok ==> ParseAddress([kind] + old(reader.Pending())) == Some((dest, reader.Pending()))
  {
    hide U16;
    ghost var all := reader.Pending();
    ghost var s := [kind] + all;
    dest := Dest(Domain([]), 0);
    var address, port;
    if kind == 0x01 {
      ok, address, port := ReadFields(reader, 4);
      dest := Dest(Norm(V4(address)), port);
      assert ok ==> s[1..5] == address && s[7..] == reader.Pending();
    } else if kind == 0x04 {
      ok, address, port := ReadFields(reader, 16);
      dest := Dest(Norm(V6(address)), port);
      assert ok ==> s[1..17] == address && s[19..] == reader.Pending();
    } else if kind == 0x03 {
      var len;
      ok, len := reader.ReadFull(1);
      if !ok {
        return;
      }
      var n := len[0] as int;
      assert s[1] == len[0] && s[2..] == reader.Pending();
      ok, address, port := ReadFields(reader, n);
      dest := Dest(Domain(address), port);
      assert ok ==> s[2..2 + n] == address && s[4 + n..] == reader.Pending();
    } else {
      ok := false;
    }
  }

  /** HandshakeSocks5AndGetResponse: takes exactly the handshake off the stream. */
  method Handshake(reader: Reader) returns (ok: bool, cmd: byte, dest: Dest)
    requires reader.Valid()
    modifies reader, reader.conn
    ensures reader.Valid()
    ensures ok <==> ParseHandshake(old(reader.Pending())).Some?
    ensures ok ==> ParseHandshake(old(reader.Pending())) == Some((cmd, dest, reader.Pending()))
    ensures ok ==> reader.conn.outgoing == old(reader.conn.outgoing) + [0x05, 0x00] + REPLY
  {
    assert ParseAddress([]).None?;
    hide ParseAddress;
    ghost var all := reader.Pending();
    cmd, dest := 0, Dest(Domain([]), 0);
    var header;
    ok, header := reader.ReadFull(2);
    if !ok {
      return;
    }
    assert all[0] == header[0] && all[1] == header[1] && reader.Pending() == all[2..];
    if header[0] != 0x05 {
      return false, cmd, dest;
    }
    var methods;
    ok, methods := reader.ReadFull(header[1] as int);
    if !ok {
      return;
    }
    ghost var rest := reader.Pending();
    assert rest == all[2 + header[1] as int..];
    reader.conn.Write([0x05, 0x00]);
    var request;
    assert |rest| == 3 ==> rest[3..] == [];
    ok, request := reader.ReadFull(4);
    if !ok {
      return;
    }
    assert request[1] == rest[1] && rest[3..] == [request[3]] + reader.Pending();
    cmd := request[1];
    ok, dest := ReadAddress(reader, request[3]);
    if ok {
      reader.conn.Write(REPLY);
    }
  }

  /**
   The uplink of HandleWSConnection.  Reading a whole buffer's worth empties the bufio buffer,
   so no byte is left behind in it when copying goes on with the raw connection.
   */
  method Uplink(reader: Reader, remote: Conn, header: seq<byte>)
    requires reader.Valid() && remote != reader.conn
    modifies reader, reader.conn`incoming, remote`outgoing
    ensures reader.Valid() && reader.Pending() == []
    ensures remote.outgoing == old(remote.outgoing) + header + old(reader.Pending())
  {
    var first := reader.Read(4096);
    remote.Write(header + first);
    CopyAll(reader.conn, remote);
  }

  /**
   HandleWSConnection, uplink half: the remote end gets the header and then the client's payload.
   No user stands for a UUID that does not parse.
   */
  method HandleConnection(reader: Reader, remote: Conn, user: Option<seq<byte>>) returns (served: bool)
    requires reader.Valid() && remote != reader.conn && (user.Some? ==> |user.value| == 16)
    modifies reader, reader.conn, remote
    ensures served <==>
              && ParseHandshake(old(reader.Pending())).Some? && ParseHandshake(old(reader.Pending())).value.0 == 1
              && user.Some?
    ensures served ==>
              var (cmd, dest, payload) := ParseHandshake(old(reader.Pending())).value;
              Proper(dest) && remote.outgoing == old(remote.outgoing) + EncodeHeader(1, user.value, dest) + payload
    ensures !served ==> remote.outgoing == old(remote.outgoing)
  {
    hide ParseAddress;
    hide EncodeHeader;
    var ok, cmd, dest := Handshake(reader);
    if !ok || cmd != 1 {
      return false;
    }
    ParsedIsProper(old(reader.Pending()));
    var header := EncodeRequestHeader(1, dest, user);
    if header.None? {
      return false;
    }
    Uplink(reader, remote, header.value);
    served := true;
  }

  lemma ParsedIsProper(s: seq<byte>)
    requires ParseHandshake(s).Some?
    ensures Normal(ParseHandshake(s).value.1)
  {
  }

  // --- both together ---

  /** forwardSocks5, and the strategy that accepts its connection. */
  method Forward(client: Reader, remote: Conn, user: seq<byte>)
    requires client.Valid() && |user| == 16 && remote != client.conn && remote.outgoing == [] && Acceptable(client.Pending())
    modifies client, client.conn, remote
    ensures var request := ParseRequest(old(client.Pending())).value;
            Proper(request.1) && remote.outgoing == EncodeHeader(1, user, request.1) + request.2
  {
    hide ParseAddress;
    hide EncodeHeader;
    hide ProperHost;
    ghost var rest := client.Pending();
    // our own greeting, then everything the client has sent behind its greeting
    var outbound := new Conn([]);
    outbound.Write([0x05, 0x01, 0x00]);
    client.CopyTo(outbound);
    // the strategy accepts that connection
    var inbound := new Conn(outbound.outgoing);
    var reader := new Reader(inbound);
    ghost var arrived := reader.Pending();
    assert arrived == [0x05, 0x01, 0x00] + rest;
    assert arrived[3..] == rest;
    var served := HandleConnection(reader, remote, Some(user));
  }

  /**
   From the client through the gateway and the strategy to the remote end.  The destination in
   the VLESS header is the one the dispatcher was asked about, and behind the header comes the
   client's payload, all of it and nothing else.  A target is found exactly if the client sends a
   greeting and an acceptable request, unless the request does not arrive at once.
   */
  method Relay(client: Reader, user: seq<byte>) returns (r: Sniff, remote: Conn)
    requires client.Valid() && |user| == 16
    modifies client, client.conn
    ensures r.Target? ==>
              && ParseGreeting(old(client.Pending())).Some?
              && var request := ParseRequest(ParseGreeting(old(client.Pending())).value);
              && request.Some? && request.value.1 == r.dest && Proper(r.dest)
              && remote.outgoing == EncodeHeader(1, user, r.dest) + request.value.2
    ensures !r.Target? ==> remote.outgoing == []
    ensures ParseGreeting(old(client.Pending())).None? ==> r == Failed
    ensures ParseGreeting(old(client.Pending())).Some? && r != Stuck ==>
              (r.Target? <==> Acceptable(ParseGreeting(old(client.Pending())).value))
    ensures r == Stuck ==>
              && ParseGreeting(old(client.Pending())).Some? && client.Pending() == ParseGreeting(old(client.Pending())).value
              && client.buffered != [] && ParseRequest(client.buffered).None?
  {
    hide ParseRequest;
    hide EncodeHeader;
    hide ProperHost;
    remote := new Conn([]);
    r := SniffTarget(client);
    if !r.Target? {
      return;
    }
    Forward(client, remote, user);
  }
}
