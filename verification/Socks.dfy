/**
 The SOCKS5 messages of sections 3 to 6 of RFC 1928 as this program writes and reads them, and the
 VLESS request header.  Destinations are compared as the program compares them, by their text
 form, in which an IPv4-mapped IPv6 address and the IPv4 address are the same.
 */
module Socks {
  import opened Wrappers
  import opened Bytes

  datatype Host = V4(ip: seq<byte>) | V6(ip: seq<byte>) | Domain(name: seq<byte>)

  datatype Dest = Dest(host: Host, port: nat)

  predicate ProperHost(h: Host) {
    match h
    case V4(ip) => |ip| == 4
    case V6(ip) => |ip| == 16
    case Domain(name) => |name| < 256
  }

  const MAPPED: seq<byte> := [0, 0, 0, 0, 0, 0, 0, 0, 0, 0, 0xff, 0xff]

  /** net.IP.String prints an IPv4-mapped address as IPv4. */
  function Norm(h: Host): Host {
    if h.V6? && |h.ip| == 16 && h.ip[..12] == MAPPED then V4(h.ip[12..]) else h
  }

  /** Only mapped addresses change, and they become the IPv4 address in their last four bytes. */
  lemma NormIff(h: Host, q: seq<byte>)
    requires ProperHost(h)
    ensures Norm(h) != h <==> h.V6? && h.ip[..12] == [0, 0, 0, 0, 0, 0, 0, 0, 0, 0, 0xff, 0xff]
    ensures |q| == 4 ==> Norm(V6([0, 0, 0, 0, 0, 0, 0, 0, 0, 0, 0xff, 0xff] + q)) == V4(q)
  {
    var mapped: seq<byte> := [0, 0, 0, 0, 0, 0, 0, 0, 0, 0, 0xff, 0xff] + q;
    assert mapped[..12] == MAPPED && mapped[12..] == q;
  }

  predicate Proper(d: Dest) {
    ProperHost(d.host) && d.port < 65536
  }

  predicate Normal(d: Dest) {
    Proper(d) && Norm(d.host) == d.host
  }

  // --- SOCKS5 ---

  /** ATYP, DST.ADDR and DST.PORT. */
  function EncodeAddress(d: Dest): seq<byte>
    requires Proper(d)
  {
    match d.host
    case V4(ip) => [0x01] + ip + PutU16(d.port)
    case Domain(name) => [0x03, |name| as byte] + name + PutU16(d.port)
    case V6(ip) => [0x04] + ip + PutU16(d.port)
  }

  /** A CONNECT request. */
  function EncodeRequest(d: Dest): seq<byte>
    requires Proper(d)
  {
    [0x05, 0x01, 0x00] + EncodeAddress(d)
  }

  /** The request as dialSocksProxy appends it together; an overlong host name is refused. */
  method BuildRequest(d: Dest) returns (req: Option<seq<byte>>)
    requires d.host.Domain? || ProperHost(d.host)
    ensures req.None? <==> d.host.Domain? && |d.host.name| > 255
    ensures req.Some? ==> ProperHost(Norm(d.host)) && req.value == EncodeRequest(Dest(Norm(d.host), d.port % 65536))
  {
    hide PutU16;
    var r: seq<byte> := [0x05, 0x01, 0x00];
    var host := Norm(d.host);
    assert ProperHost(d.host) ==> ProperHost(host);
    hide Norm;
    match host {
      case V4(ip) =>
        r := r + [0x01];
        r := r + ip;
        assert r == [0x05, 0x01, 0x00] + ([0x01] + ip);
      case V6(ip) =>
        r := r + [0x04];
        r := r + ip;
        assert r == [0x05, 0x01, 0x00] + ([0x04] + ip);
      case Domain(name) =>
        if |name| > 255 {
          return None;
        }
        r := r + [0x03];
        r := r + [|name| as byte];
        r := r + name;
        assert r == [0x05, 0x01, 0x00] + ([0x03, |name| as byte] + name);
    }
    r := r + PutU16(d.port % 65536);
    return Some(r);
  }

  /** What dialSocksProxy reads back: the method choice, then the reply with its bound address. */
  function ParseReplies(s: seq<byte>): Option<seq<byte>> {
    if |s| < 6 || s[0] != 0x05 || s[1] != 0x00 || s[2] != 0x05 || s[3] != 0x00 then None
    else
      match ParseAddress(s[5..])
      case None => None
      case Some((_, rest)) => Some(rest)
  }

  /** The address at the front of s, in normal form, and what follows it. */
  function ParseAddress(s: seq<byte>): Option<(Dest, seq<byte>)> {
    if |s| < 1 then None
    else if s[0] == 0x01 then ParseFixed(s, 4, s => V4(s))
    else if s[0] == 0x04 then ParseFixed(s, 16, s => V6(s))
    else if s[0] == 0x03 then
      if |s| < 2 || |s| < 2 + s[1] as int + 2 then None
      else
        var n := s[1] as int;
        Some((Dest(Domain(s[2..2 + n]), U16(s[2 + n], s[3 + n])), s[4 + n..]))
    else None
  }

  function ParseFixed(s: seq<byte>, n: nat, host: seq<byte> -> Host): Option<(Dest, seq<byte>)>
    requires |s| >= 1
  {
    if |s| < 1 + n + 2 then None
    else Some((Dest(Norm(host(s[1..1 + n])), U16(s[1 + n], s[2 + n])), s[3 + n..]))
  }

  /** The request that HandshakeSocks5AndGetResponse reads; version and reserved byte are not checked. */
  function ParseRequest(s: seq<byte>): Option<(byte, Dest, seq<byte>)> {
    if |s| < 3 then None
    else
      match ParseAddress(s[3..])
      case None => None
      case Some((d, rest)) => Some((s[1], d, rest))
  }

  /** The method negotiation in front of it. */
  function ParseGreeting(s: seq<byte>): Option<seq<byte>> {
    if |s| < 2 || |s| < 2 + s[1] as int then None else Some(s[2 + s[1] as int..])
  }

  function ParseHandshake(s: seq<byte>): Option<(byte, Dest, seq<byte>)> {
    if |s| < 2 || s[0] != 0x05 then None
    else
      match ParseGreeting(s)
      case None => None
      case Some(rest) => ParseRequest(rest)
  }

  lemma ParseFixedBack(tag: byte, ip: seq<byte>, port: nat, rest: seq<byte>, host: seq<byte> -> Host)
    requires port < 65536
    ensures ParseFixed([tag] + ip + PutU16(port) + rest, |ip|, host) == Some((Dest(Norm(host(ip)), port), rest))
  {
    hide U16;
    hide PutU16;
    var s := [tag] + ip + PutU16(port) + rest;
    assert s[1..1 + |ip|] == ip;
    assert s[1 + |ip|] == PutU16(port)[0] && s[2 + |ip|] == PutU16(port)[1];
    assert s[3 + |ip|..] == rest;
  }

  /** Parsing undoes encoding, up to the text form, and leaves exactly what follows. */
  lemma AddressRoundTrip(d: Dest, rest: seq<byte>)
    requires Proper(d)
    ensures ParseAddress(EncodeAddress(d) + rest) == Some((Dest(Norm(d.host), d.port), rest))
  {
    var s := EncodeAddress(d) + rest;
    match d.host
    case V4(ip) =>
      ParseFixedBack(0x01, ip, d.port, rest, s => V4(s));
    case V6(ip) =>
      ParseFixedBack(0x04, ip, d.port, rest, s => V6(s));
    case Domain(name) =>
      hide U16;
      hide PutU16;
      var n := |name|;
      assert s[2..2 + n] == name;
      assert s[2 + n] == PutU16(d.port)[0] && s[3 + n] == PutU16(d.port)[1];
      assert s[4 + n..] == rest;
  }

  // --- exactly which byte strings are accepted ---

  /** An address at the front of s whose text form is d, and rest behind it. */
  ghost predicate StartsAddress(s: seq<byte>, d: Dest, rest: seq<byte>) {
    exists e :: Proper(e) && s == EncodeAddress(e) + rest && d == Dest(Norm(e.host), e.port)
  }

  /** Whatever the parser takes for an address is the encoding of one. */
  lemma {:induction false} AddressSound(s: seq<byte>) returns (e: Dest)
    requires ParseAddress(s).Some?
    ensures Proper(e) && s == EncodeAddress(e) + ParseAddress(s).value.1
    ensures ParseAddress(s).value.0 == Dest(Norm(e.host), e.port)
  {
    hide PutU16;
    if s[0] == 0x03 {
      var n := s[1] as int;
      e := Dest(Domain(s[2..2 + n]), U16(s[2 + n], s[3 + n]));
      U16Back(s[2 + n], s[3 + n]);
      hide U16;
      assert s == [0x03, s[1]] + s[2..2 + n] + [s[2 + n], s[3 + n]] + s[4 + n..];
    } else {
      var n := if s[0] == 0x01 then 4 else 16;
      var ip, port := s[1..1 + n], U16(s[1 + n], s[2 + n]);
      e := Dest(if n == 4 then V4(ip) else V6(ip), port);
      U16Back(s[1 + n], s[2 + n]);
      hide U16;
      assert s == [s[0]] + ip + [s[1 + n], s[2 + n]] + s[3 + n..];
    }
  }

  /** A greeting that offers these methods. */
  function EncodeGreeting(version: byte, methods: seq<byte>): seq<byte>
    requires |methods| < 256
  {
    [version, |methods| as byte] + methods
  }

  ghost predicate StartsGreeting(s: seq<byte>, rest: seq<byte>) {
    exists v: byte, methods: seq<byte> :: |methods| < 256 && s == EncodeGreeting(v, methods) + rest
  }

  /** The method negotiation takes exactly a greeting, whatever and however many methods it offers. */
  lemma {:induction false} GreetingIff(s: seq<byte>, rest: seq<byte>)
    ensures ParseGreeting(s) == Some(rest) <==> StartsGreeting(s, rest)
  {
    if ParseGreeting(s) == Some(rest) {
      var methods := s[2..2 + s[1] as int];
      assert s == EncodeGreeting(s[0], methods) + rest;
    }
    if v: byte, methods: seq<byte> :| |methods| < 256 && s == EncodeGreeting(v, methods) + rest {
      assert s[2 + |methods|..] == rest;
    }
  }

  /** A request: version and reserved byte may be anything. */
  ghost predicate StartsRequest(s: seq<byte>, cmd: byte, d: Dest, rest: seq<byte>) {
    exists v: byte, reserved: byte, address: seq<byte> ::
      s == [v, cmd, reserved] + address && StartsAddress(address, d, rest)
  }

  lemma {:induction false} RequestIff(s: seq<byte>, cmd: byte, d: Dest, rest: seq<byte>)
    ensures ParseRequest(s) == Some((cmd, d, rest)) <==> StartsRequest(s, cmd, d, rest)
  {
    hide ParseAddress;
    hide EncodeAddress;
    if ParseRequest(s) == Some((cmd, d, rest)) {
      var e := AddressSound(s[3..]);
      assert s == [s[0], cmd, s[2]] + s[3..] && StartsAddress(s[3..], d, rest);
    }
    if v: byte, reserved: byte, address: seq<byte> :| s == [v, cmd, reserved] + address && StartsAddress(address, d, rest) {
      assert s[3..] == address;
      var e :| Proper(e) && address == EncodeAddress(e) + rest && d == Dest(Norm(e.host), e.port);
      AddressRoundTrip(e, rest);
    }
  }

  /** A greeting of version 5 and then a request. */
  ghost predicate StartsHandshake(s: seq<byte>, cmd: byte, d: Dest, rest: seq<byte>) {
    exists methods: seq<byte>, request: seq<byte> ::
      |methods| < 256 && s == EncodeGreeting(0x05, methods) + request && StartsRequest(request, cmd, d, rest)
  }

  /** The exact language of the handshake parser. */
  lemma {:induction false} HandshakeIff(s: seq<byte>, cmd: byte, d: Dest, rest: seq<byte>)
    ensures ParseHandshake(s) == Some((cmd, d, rest)) <==> StartsHandshake(s, cmd, d, rest)
  {
    hide ParseRequest;
    hide StartsRequest;
    if ParseHandshake(s) == Some((cmd, d, rest)) {
      var methods, request := s[2..2 + s[1] as int], s[2 + s[1] as int..];
      RequestIff(request, cmd, d, rest);
      assert s == EncodeGreeting(0x05, methods) + request;
    }
    if methods: seq<byte>, request: seq<byte> :|
        |methods| < 256 && s == EncodeGreeting(0x05, methods) + request && StartsRequest(request, cmd, d, rest) {
      assert s[2 + |methods|..] == request;
      RequestIff(request, cmd, d, rest);
    }
  }

  /** The dialler accepts a choice of method 0 and a reply with code 0, with any bound address, and nothing else. */
  lemma {:induction false} RepliesIff(s: seq<byte>, rest: seq<byte>)
    ensures ParseReplies(s) == Some(rest) <==>
            exists reserved: byte, address: seq<byte>, bound: Dest ::
              s == [0x05, 0x00, 0x05, 0x00, reserved] + address && StartsAddress(address, bound, rest)
  {
    hide ParseAddress;
    hide EncodeAddress;
    if ParseReplies(s) == Some(rest) {
      var e := AddressSound(s[5..]);
      assert s == [0x05, 0x00, 0x05, 0x00, s[4]] + s[5..];
      assert StartsAddress(s[5..], Dest(Norm(e.host), e.port), rest);
    }
    if reserved: byte, address: seq<byte>, bound: Dest :|
        s == [0x05, 0x00, 0x05, 0x00, reserved] + address && StartsAddress(address, bound, rest) {
      assert s[5..] == address;
      var e :| Proper(e) && address == EncodeAddress(e) + rest && bound == Dest(Norm(e.host), e.port);
      AddressRoundTrip(e, rest);
      NotEmpty(e);
    }
  }

  lemma NotEmpty(e: Dest)
    requires Proper(e)
    ensures EncodeAddress(e) != []
  {
    hide PutU16;
  }

  const REPLY: seq<byte> := [0x05, 0x00, 0x00, 0x01, 0, 0, 0, 0, 0, 0]

  /** A method choice and a reply with any bound address satisfy the dialler, and what follows is left for the tunnel. */
  lemma RepliesAccepted(bound: Dest, rest: seq<byte>)
    requires Proper(bound)
    ensures ParseReplies([0x05, 0x00] + ([0x05, 0x00, 0x00] + EncodeAddress(bound) + rest)) == Some(rest)
  {
    var s := [0x05, 0x00] + ([0x05, 0x00, 0x00] + EncodeAddress(bound) + rest);
    assert s[5..] == EncodeAddress(bound) + rest;
    AddressRoundTrip(bound, rest);
    hide ParseAddress;
  }

  /** The strategy's own reply is of that form. */
  lemma ReplyIsOne()
    ensures REPLY == [0x05, 0x00, 0x00] + EncodeAddress(Dest(V4([0, 0, 0, 0]), 0))
  {
    var zeros: seq<byte> := [0, 0, 0, 0];
    assert PutU16(0) == [0, 0];
    hide PutU16;
    assert EncodeAddress(Dest(V4(zeros), 0)) == [0x01] + zeros + [0, 0];
  }

  /** So the dialler of this program accepts the replies of its own strategies. */
  lemma OwnRepliesAccepted(rest: seq<byte>)
    ensures ParseReplies([0x05, 0x00] + REPLY + rest) == Some(rest)
  {
    ReplyIsOne();
    var bound := Dest(V4([0, 0, 0, 0]), 0);
    RepliesAccepted(bound, rest);
    var reply := [0x05, 0x00, 0x00] + EncodeAddress(bound);
    assert [0x05, 0x00] + reply + rest == [0x05, 0x00] + (reply + rest);
    hide *;
  }

  lemma RequestBehind(s: seq<byte>, address: seq<byte>)
    requires |s| >= 3 && s[3..] == address && ParseAddress(address).Some?
    ensures ParseRequest(s) == Some((s[1], ParseAddress(address).value.0, ParseAddress(address).value.1))
  {
    hide ParseAddress;
  }

  lemma RequestRoundTrip(d: Dest, rest: seq<byte>)
    requires Proper(d)
    ensures ParseRequest(EncodeRequest(d) + rest) == Some((0x01, Dest(Norm(d.host), d.port), rest))
  {
    AddressRoundTrip(d, rest);
    var address := EncodeAddress(d);
    assert EncodeRequest(d) + rest == [0x05, 0x01, 0x00] + (address + rest);
    hide *;
    var s: seq<byte> := [0x05, 0x01, 0x00] + (address + rest);
    assert s[3..] == address + rest && s[1] == 0x01;
    RequestBehind(s, address + rest);
  }

  /** The handshake of any client: a greeting with any methods, then the request. */
  lemma HandshakeRoundTrip(methods: seq<byte>, d: Dest, rest: seq<byte>)
    requires Proper(d) && |methods| < 256
    ensures ParseHandshake(EncodeGreeting(0x05, methods) + EncodeRequest(d) + rest) ==
            Some((0x01, Dest(Norm(d.host), d.port), rest))
  {
    hide EncodeRequest;
    hide ParseRequest;
    var s := EncodeGreeting(0x05, methods) + EncodeRequest(d) + rest;
    assert s[2 + |methods|..] == EncodeRequest(d) + rest;
    RequestRoundTrip(d, rest);
  }

  // --- VLESS ---

  function EncodeVlessAddress(h: Host): seq<byte>
    requires ProperHost(h)
  {
    match h
    case V4(ip) => [1] + ip
    case Domain(name) => [2, |name| as byte] + name
    case V6(ip) => [3] + ip
  }

  /** EncodeRequestHeader: version, user, no addons, command, port, then the address. */
  function EncodeHeader(command: byte, user: seq<byte>, d: Dest): seq<byte>
    requires |user| == 16 && Proper(d)
  {
    [0] + user + [0, command] + PutU16(d.port) + EncodeVlessAddress(d.host)
  }

  /** EncodeRequestHeader field by field; no user stands for a UUID that does not parse. */
  method EncodeRequestHeader(command: byte, d: Dest, user: Option<seq<byte>>) returns (h: Option<seq<byte>>)
    requires d.host.Domain? || ProperHost(d.host)
    requires user.Some? ==> |user.value| == 16
    ensures h.None? <==> user.None? || (d.host.Domain? && |d.host.name| > 255)
    ensures h.Some? ==> ProperHost(Norm(d.host)) &&
                        h.value == EncodeHeader(command, user.value, Dest(Norm(d.host), d.port % 65536))
  {
    if user.None? {
      return None;
    }
    hide PutU16;
    var buf: seq<byte> := [0];
    buf := buf + user.value;
    buf := buf + [0];
    buf := buf + [command];
    assert buf == [0] + user.value + [0, command];
    buf := buf + PutU16(d.port % 65536);
    var host := Norm(d.host);
    assert ProperHost(d.host) ==> ProperHost(host);
    hide Norm;
    ghost var front := buf;
    match host {
      case V4(ip) =>
        buf := buf + [1];
        buf := buf + ip;
        assert buf == front + ([1] + ip);
      case V6(ip) =>
        buf := buf + [3];
        buf := buf + ip;
        assert buf == front + ([3] + ip);
      case Domain(name) =>
        if |name| > 255 {
          return None;
        }
        buf := buf + [2];
        buf := buf + [|name| as byte];
        buf := buf + name;
        assert buf == front + ([2, |name| as byte] + name);
    }
    return Some(buf);
  }

  datatype Header = Header(user: seq<byte>, command: byte, dest: Dest)

  /** How the remote end reads a header without addons. */
  function DecodeHeader(s: seq<byte>): Option<(Header, seq<byte>)> {
    if |s| < 22 || s[0] != 0 || s[17] != 0 then None
    else
      var user, command, port := s[1..17], s[18], U16(s[19], s[20]);
      match DecodeVlessAddress(s[21..])
      case None => None
      case Some((h, rest)) => Some((Header(user, command, Dest(h, port)), rest))
  }

  function DecodeVlessAddress(s: seq<byte>): Option<(Host, seq<byte>)> {
    if |s| < 1 then None
    else if s[0] == 1 then (if |s| < 5 then None else Some((V4(s[1..5]), s[5..])))
    else if s[0] == 3 then (if |s| < 17 then None else Some((V6(s[1..17]), s[17..])))
    else if s[0] == 2 then
      (if |s| < 2 || |s| < 2 + s[1] as int then None
       else Some((Domain(s[2..2 + s[1] as int]), s[2 + s[1] as int..])))
    else None
  }

  lemma VlessAddressRoundTrip(h: Host, rest: seq<byte>)
    requires ProperHost(h)
    ensures DecodeVlessAddress(EncodeVlessAddress(h) + rest) == Some((h, rest))
  {
    var s := EncodeVlessAddress(h) + rest;
    match h
    case V4(ip) => assert s[1..5] == ip && s[5..] == rest;
    case V6(ip) => assert s[1..17] == ip && s[17..] == rest;
    case Domain(name) => assert s[2..2 + |name|] == name && s[2 + |name|..] == rest;
  }

  lemma HeaderRoundTrip(command: byte, user: seq<byte>, d: Dest, rest: seq<byte>)
    requires |user| == 16 && Proper(d)
    ensures DecodeHeader(EncodeHeader(command, user, d) + rest) == Some((Header(user, command, d), rest))
  {
    hide U16;
    hide PutU16;
    var address := EncodeVlessAddress(d.host) + rest;
    var s := EncodeHeader(command, user, d) + rest;
    VlessAddressRoundTrip(d.host, rest);
    assert s == [0] + user + [0, command] + PutU16(d.port) + address;
    assert s[1..17] == user && s[21..] == address;
  }

  // --- byte by byte ---

  /** The address types of RFC 1928 and those of VLESS, with what follows each. */
  ghost predicate OnWire(h: Host, tagged: seq<byte>, v4: byte, name: byte, v6: byte) {
    match h
    case V4(ip) => |ip| == 4 && tagged == [v4] + ip
    case Domain(n) => |n| < 256 && tagged == [name, |n| as byte] + n
    case V6(ip) => |ip| == 16 && tagged == [v6] + ip
  }

  /** Both formats with their constants, and the port with its more significant byte first. */
  lemma WireFormat(command: byte, user: seq<byte>, d: Dest) returns (socks: seq<byte>, vless: seq<byte>)
    requires |user| == 16 && Proper(d)
    ensures OnWire(d.host, socks, 1, 3, 4) && OnWire(d.host, vless, 1, 2, 3)
    ensures var port := [(d.port / 256) as byte, (d.port % 256) as byte];
            && EncodeRequest(d) == [5, 1, 0] + socks + port
            && EncodeHeader(command, user, d) == [0] + user + [0, command] + port + vless
  {
    PutU16Bytes(d.port);
    hide PutU16;
    vless := EncodeVlessAddress(d.host);
    socks := match d.host
      case V4(ip) => [1] + ip
      case Domain(n) => [3, |n| as byte] + n
      case V6(ip) => [4] + ip;
    assert EncodeRequest(d) == [5, 1, 0] + (socks + PutU16(d.port));
  }

  // --- the same destination all the way ---

  /**
   A destination that the gateway requests over SOCKS5 arrives at the remote end as the same host
   and port, although the two formats number the address types differently.
   */
  lemma DestinationPreserved(methods: seq<byte>, user: seq<byte>, d: Dest, rest: seq<byte>)
    requires |methods| < 256 && |user| == 16 && Normal(d)
    ensures var h := ParseHandshake(EncodeGreeting(0x05, methods) + EncodeRequest(d) + rest);
            && h == Some((0x01, d, rest))
            && DecodeHeader(EncodeHeader(h.value.0, user, h.value.1) + rest) == Some((Header(user, 0x01, d), rest))
  {
    HandshakeRoundTrip(methods, d, rest);
    HeaderRoundTrip(0x01, user, d, rest);
  }

  /** Both encodings tell normal destinations apart. */
  lemma EncodingsInjective(user: seq<byte>, a: Dest, b: Dest)
    requires |user| == 16 && Normal(a) && Normal(b)
    ensures EncodeRequest(a) == EncodeRequest(b) <==> a == b
    ensures EncodeHeader(0x01, user, a) == EncodeHeader(0x01, user, b) <==> a == b
  {
    RequestRoundTrip(a, []);
    RequestRoundTrip(b, []);
    assert EncodeRequest(a) + [] == EncodeRequest(a) && EncodeRequest(b) + [] == EncodeRequest(b);
    HeaderRoundTrip(0x01, user, a, []);
    HeaderRoundTrip(0x01, user, b, []);
    assert EncodeHeader(0x01, user, a) + [] == EncodeHeader(0x01, user, a);
    assert EncodeHeader(0x01, user, b) + [] == EncodeHeader(0x01, user, b);
  }

  /** Without normalisation they do not: a mapped address comes back as IPv4. */
  lemma MappedBecomesV4(ip: seq<byte>, port: nat, rest: seq<byte>)
    requires |ip| == 4 && port < 65536
    ensures ParseRequest(EncodeRequest(Dest(V6(MAPPED + ip), port)) + rest) ==
            ParseRequest(EncodeRequest(Dest(V4(ip), port)) + rest)
  {
    RequestRoundTrip(Dest(V6(MAPPED + ip), port), rest);
    RequestRoundTrip(Dest(V4(ip), port), rest);
    assert (MAPPED + ip)[..12] == MAPPED && (MAPPED + ip)[12..] == ip;
  }
}
