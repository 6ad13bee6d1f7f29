/**
 The SNI walker of the gateway: it reads the server name out of the TLS ClientHello that a client
 has sent, without consuming it.  The layout is that of section 4.1.2 of RFC 8446; the server_name
 extension is that of section 3 of RFC 6066.
 */
module ClientHello {
  import opened Bytes
  import opened Streams

  datatype Result = Host(name: seq<byte>) | Error

  // --- the layout ---

  datatype Extension = Extension(kind: nat, body: seq<byte>)

  predicate Fits(e: Extension) {
    e.kind < 65536 && |e.body| < 65536
  }

  function Vec8(s: seq<byte>): seq<byte>
    requires |s| < 256
  {
    [|s| as byte] + s
  }

  function Vec16(s: seq<byte>): seq<byte>
    requires |s| < 65536
  {
    PutU16(|s|) + s
  }

  function EncodeExtension(e: Extension): seq<byte>
    requires Fits(e)
  {
    PutU16(e.kind) + Vec16(e.body)
  }

  function EncodeExtensions(es: seq<Extension>): seq<byte>
    requires forall e :: e in es ==> Fits(e)
  {
    if es == [] then [] else EncodeExtension(es[0]) + EncodeExtensions(es[1..])
  }

  /** A server_name extension with one host_name entry. */
  function ServerName(name: seq<byte>): Extension
    requires |name| < 65533
  {
    Extension(0, Vec16([0] + Vec16(name)))
  }

  /** The parts of a ClientHello handshake message. */
  datatype Hello = Hello(
    prefix: seq<byte>,        // handshake header, version and random: 38 bytes, the first is 1
    sessionId: seq<byte>,
    cipherSuites: seq<byte>,
    compression: seq<byte>,
    extensions: seq<Extension>)

  predicate WellFormed(h: Hello) {
    && |h.prefix| == 38 && h.prefix[0] == 1
    && |h.sessionId| < 256 && |h.cipherSuites| < 65536 && |h.compression| < 256
    && (forall e :: e in h.extensions ==> Fits(e))
    && |EncodeExtensions(h.extensions)| < 65536
  }

  function EncodeHello(h: Hello): seq<byte>
    requires WellFormed(h)
  {
    h.prefix + Vec8(h.sessionId) + Vec16(h.cipherSuites) + Vec8(h.compression) + Vec16(EncodeExtensions(h.extensions))
  }

  /** A TLS record of type handshake, major version 3. */
  function EncodeRecord(minor: byte, body: seq<byte>): seq<byte>
    requires |body| < 65536
  {
    [0x16, 0x03, minor] + Vec16(body)
  }

  // --- what the walker computes ---

  /** The body of a server_name extension, read as the walker reads it. */
  function ReadName(sni: seq<byte>): Result {
    if |sni| < 5 then Error
    else if sni[2] != 0 then Error
    else
      var n := U16(sni[3], sni[4]);
      if |sni| - 5 < n then Error else Host(sni[5..5 + n])
  }

  function WalkExtensions(data: seq<byte>): Result
    decreases |data|
  {
    if |data| < 4 then Error
    else
      var kind, n := U16(data[0], data[1]), U16(data[2], data[3]);
      var rest := data[4..];
      if |rest| < n then Error
      else if kind == 0 then ReadName(rest[..n])
      else WalkExtensions(rest[n..])
  }

  function WalkHello(data: seq<byte>): Result {
    if |data| < 42 then Error
    else if data[0] != 1 then Error
    else
      var o1 := 39 + data[38] as int;
      if o1 + 2 > |data| then Error
      else
        var o2 := o1 + 2 + U16(data[o1], data[o1 + 1]);
        if o2 + 1 > |data| then Error
        else
          var o3 := o2 + 1 + data[o2] as int;
          if o3 + 2 > |data| then Error
          else
            var n := U16(data[o3], data[o3 + 1]);
            if o3 + 2 + n > |data| then Error
            else WalkExtensions(data[o3 + 2..o3 + 2 + n])
  }

  function WalkRecord(peeked: seq<byte>): Result {
    if |peeked| < 5 then Error
    else if peeked[0] != 0x16 || peeked[1] != 0x03 then Error
    else
      var n := U16(peeked[3], peeked[4]);
      if |peeked| < 5 + n then Error else WalkHello(peeked[5..5 + n])
  }

  datatype Sniff = Answer(result: Result) | Stuck

  /**
   sniffTargetTLS.  It only peeks, and an answer is what the whole stream says.  It gets stuck
   when the record is not in the buffer at once, which includes every record that the buffer
   cannot hold.
   */
  method SniffTargetTLS(reader: Reader) returns (r: Sniff)
    requires reader.Valid()
    modifies reader, reader.conn`incoming
    ensures reader.Valid() && reader.Pending() == old(reader.Pending())
    ensures r.Answer? ==> r.result == WalkRecord(reader.Pending())
    ensures r == Stuck ==>
              && 0 < |reader.buffered|
              && (|reader.buffered| < 5 || |reader.buffered| < 5 + reader.buffered[3] as int * 256 + reader.buffered[4] as int)
    ensures r.Answer? && r.result.Host? ==>
              && 5 <= |reader.buffered| <= 4096
              && 5 + reader.buffered[3] as int * 256 + reader.buffered[4] as int <= |reader.buffered|
  {
    hide WalkHello;
    hide U16;
    var f := reader.FillBuffer(5);
    if f != Ready {
      return if f == AtEnd then Answer(Error) else Stuck;
    }
    ghost var all := reader.Pending();
    var header := reader.buffered[..5];
    assert reader.buffered <= all;
    assert header[0] == all[0] && header[1] == all[1] && header[3] == all[3] && header[4] == all[4];
    if header[0] != 0x16 {
      return Answer(Error);
    }
    if header[1] != 0x03 {
      return Answer(Error);
    }
    var recordLen := U16(header[3], header[4]);
    assert recordLen == header[3] as int * 256 + header[4] as int by {
      U16Value(header[3], header[4]);
    }
    var total := 5 + recordLen;
    f := reader.FillBuffer(total);
    if f != Ready {
      return Stuck;
    }
    var peeked := reader.buffered[..total];
    var data := peeked[5..];
    assert data == all[5..total];
    var result := SniffHello(data);
    r := Answer(result);
  }

  /** The walk over the fields of the handshake message. */
  method SniffHello(data: seq<byte>) returns (r: Result)
    ensures r == WalkHello(data)
  {
    hide WalkExtensions;
    hide U16;
    if |data| < 42 {
      return Error;
    }
    if data[0] != 0x01 {
      return Error;
    }
    var offset := 38;
    var sessionIDLen := data[offset] as int;
    offset := offset + 1 + sessionIDLen;
    if offset + 2 > |data| {
      return Error;
    }
    var cipherSuitesLen := U16(data[offset], data[offset + 1]);
    offset := offset + 2 + cipherSuitesLen;
    if offset + 1 > |data| {
      return Error;
    }
    var compressionMethodsLen := data[offset] as int;
    offset := offset + 1 + compressionMethodsLen;
    if offset + 2 > |data| {
      return Error;
    }
    var extensionsLen := U16(data[offset], data[offset + 1]);
    offset := offset + 2;
    if offset + extensionsLen > |data| {
      return Error;
    }
    r := SniffExtensions(data[offset..offset + extensionsLen]);
  }

  /** The loop over the extension block, which shrinks with every turn. */
  method SniffExtensions(block: seq<byte>) returns (r: Result)
    ensures r == WalkExtensions(block)
  {
    hide U16;
    var extensionsData := block;
    while |extensionsData| >= 4
      invariant WalkExtensions(extensionsData) == WalkExtensions(block)
      decreases |extensionsData|
    {
      var extType := U16(extensionsData[0], extensionsData[1]);
      var extLen := U16(extensionsData[2], extensionsData[3]);
      extensionsData := extensionsData[4..];
      if |extensionsData| < extLen {
        return Error;
      }
      if extType == 0 {
        r := SniffName(extensionsData[..extLen]);
        return;
      }
      extensionsData := extensionsData[extLen..];
    }
    return Error;
  }

  method SniffName(data: seq<byte>) returns (r: Result)
    ensures r == ReadName(data)
  {
    var sniData := data;
    if |sniData| < 5 {
      return Error;
    }
    sniData := sniData[2..];
    if sniData[0] != 0x00 {
      return Error;
    }
    var nameLen := U16(sniData[1], sniData[2]);
    sniData := sniData[3..];
    if |sniData| < nameLen {
      return Error;
    }
    assert sniData[..nameLen] == data[5..5 + nameLen];
    return Host(sniData[..nameLen]);
  }

  // --- the walker against the layout ---

  lemma {:induction false} SkipExtension(e: Extension, rest: seq<byte>)
    requires Fits(e)
    ensures var data := EncodeExtension(e) + rest;
            && |data| == 4 + |e.body| + |rest|
            && U16(data[0], data[1]) == e.kind && U16(data[2], data[3]) == |e.body|
            && data[4..4 + |e.body|] == e.body && data[4 + |e.body|..] == rest
  {
    hide U16;
    hide PutU16;
    var data := EncodeExtension(e) + rest;
    var kind, len := PutU16(e.kind), PutU16(|e.body|);
    assert data == kind + (len + (e.body + rest));
    assert data[0] == kind[0] && data[1] == kind[1] && data[2] == len[0] && data[3] == len[1];
    assert data[4..] == e.body + rest;
    assert data[4..][..|e.body|] == e.body;
  }

  /** The extensions before the first server_name are skipped, whatever they are. */
  lemma {:induction false} WalksPast(before: seq<Extension>, rest: seq<byte>)
    requires forall e :: e in before ==> Fits(e) && e.kind != 0
    ensures WalkExtensions(EncodeExtensions(before) + rest) == WalkExtensions(rest)
  {
    if before == [] {
      assert EncodeExtensions(before) + rest == rest;
    } else {
      var tail := EncodeExtensions(before[1..]) + rest;
      assert EncodeExtensions(before) + rest == EncodeExtension(before[0]) + tail;
      SkipExtension(before[0], tail);
      var data := EncodeExtension(before[0]) + tail;
      assert data[4..][|before[0].body|..] == data[4 + |before[0].body|..];
      WalksPast(before[1..], rest);
    }
  }

  lemma ReadsName(name: seq<byte>)
    requires |name| < 65533
    ensures ReadName(ServerName(name).body) == Host(name)
  {
    hide U16;
    hide PutU16;
    var body := ServerName(name).body;
    assert body == PutU16(|name| + 3) + ([0] + (PutU16(|name|) + name));
    assert body[5..5 + |name|] == name;
  }

  lemma Starts8(v: seq<byte>)
    requires |v| < 256
    ensures |Vec8(v)| == 1 + |v| && Vec8(v)[0] as int == |v|
  {
  }

  lemma Starts16(v: seq<byte>)
    requires |v| < 65536
    ensures var q := Vec16(v); |q| == 2 + |v| && U16(q[0], q[1]) == |v| && q[2..] == v
  {
    hide U16;
    hide PutU16;
  }

  /** Where the fields of a message lie. */
  lemma Offsets(p: seq<byte>, a: seq<byte>, b: seq<byte>, c: seq<byte>, d: seq<byte>)
    requires |p| > 0 && |a| >= 1 && |b| >= 2 && |c| >= 1 && |d| >= 2
    ensures var data := p + a + b + c + d;
            var x, y, z := |p| + |a|, |p| + |a| + |b|, |p| + |a| + |b| + |c|;
            && |data| == z + |d|
            && data[0] == p[0] && data[|p|] == a[0]
            && data[x] == b[0] && data[x + 1] == b[1] && data[y] == c[0]
            && data[z] == d[0] && data[z + 1] == d[1] && data[z + 2..] == d[2..]
  {
  }

  /** The walk along given offsets. */
  lemma WalksOffsets(data: seq<byte>, a: nat, b: nat, c: nat, n: nat)
    requires |data| >= 42 && data[0] == 1 && data[38] as int == a
    requires 41 + a <= |data| && U16(data[39 + a], data[40 + a]) == b
    requires 42 + a + b <= |data| && data[41 + a + b] as int == c
    requires 44 + a + b + c + n <= |data| && U16(data[42 + a + b + c], data[43 + a + b + c]) == n
    ensures WalkHello(data) == WalkExtensions(data[44 + a + b + c..44 + a + b + c + n])
  {
    hide WalkExtensions;
    hide U16;
  }

  lemma WalksFields(p: seq<byte>, a: seq<byte>, b: seq<byte>, c: seq<byte>, d: seq<byte>)
    requires |p| == 38 && p[0] == 1
    requires |a| >= 1 && |a| == 1 + a[0] as int
    requires |b| >= 2 && |b| == 2 + U16(b[0], b[1])
    requires |c| >= 1 && |c| == 1 + c[0] as int
    requires |d| >= 2 && |d| >= 2 + U16(d[0], d[1])
    ensures WalkHello(p + a + b + c + d) == WalkExtensions(d[2..2 + U16(d[0], d[1])])
  {
    hide *;
    Offsets(p, a, b, c, d);
    var data, n := p + a + b + c + d, U16(d[0], d[1]);
    var end := 44 + (|a| - 1) + (|b| - 2) + (|c| - 1);
    assert data[end..] == d[2..];
    assert data[end..][..n] == data[end..end + n] && d[2..][..n] == d[2..2 + n];
    WalksOffsets(data, |a| - 1, |b| - 2, |c| - 1, n);
  }

  lemma WalksHello(h: Hello)
    requires WellFormed(h)
    ensures WalkHello(EncodeHello(h)) == WalkExtensions(EncodeExtensions(h.extensions))
  {
    hide WalkHello;
    hide WalkExtensions;
    hide U16;
    hide PutU16;
    var ext := EncodeExtensions(h.extensions);
    Starts8(h.sessionId);
    Starts16(h.cipherSuites);
    Starts8(h.compression);
    Starts16(ext);
    WalksFields(h.prefix, Vec8(h.sessionId), Vec16(h.cipherSuites), Vec8(h.compression), Vec16(ext));
    assert Vec16(ext)[2..2 + |ext|] == ext;
  }

  /** From a well-formed ClientHello the walker returns exactly the encoded name. */
  lemma SniffsEncodedName(minor: byte, h: Hello, n: nat, name: seq<byte>, after: seq<byte>)
    requires WellFormed(h) && |EncodeHello(h)| < 65536 && |name| < 65533
    requires n < |h.extensions| && h.extensions[n] == ServerName(name)
    requires forall i :: 0 <= i < n ==> h.extensions[i].kind != 0
    ensures WalkRecord(EncodeRecord(minor, EncodeHello(h)) + after) == Host(name)
  {
    var body := EncodeHello(h);
    RecordBody(minor, body, after);
    WalksHello(h);
    var before, tail := h.extensions[..n], EncodeExtensions(h.extensions[n + 1..]);
    EncodeSplit(h.extensions, n);
    WalksPast(before, EncodeExtension(ServerName(name)) + tail);
    SkipExtension(ServerName(name), tail);
    ReadsName(name);
    var data := EncodeExtension(ServerName(name)) + tail;
    assert data[4..][..|ServerName(name).body|] == ServerName(name).body;
  }

  /** Without a server_name extension it reports an error. */
  lemma NoNameNoHost(minor: byte, h: Hello, after: seq<byte>)
    requires WellFormed(h) && |EncodeHello(h)| < 65536
    requires forall e :: e in h.extensions ==> e.kind != 0
    ensures WalkRecord(EncodeRecord(minor, EncodeHello(h)) + after) == Error
  {
    RecordBody(minor, EncodeHello(h), after);
    WalksHello(h);
    WalksPast(h.extensions, []);
    assert EncodeExtensions(h.extensions) + [] == EncodeExtensions(h.extensions);
  }

  /** A message that ends behind the compression methods has no extension block at all. */
  function EncodeBare(h: Hello): seq<byte>
    requires WellFormed(h)
  {
    h.prefix + Vec8(h.sessionId) + Vec16(h.cipherSuites) + Vec8(h.compression)
  }

  lemma WalksBare(p: seq<byte>, a: seq<byte>, b: seq<byte>, c: seq<byte>)
    requires |p| == 38 && |a| >= 1 && |a| == 1 + a[0] as int
    requires |b| >= 2 && |b| == 2 + U16(b[0], b[1]) && |c| >= 1 && |c| == 1 + c[0] as int
    ensures WalkHello(p + a + b + c) == Error
  {
    hide U16;
    var data := p + a + b + c;
    assert data[38] == a[0] && data[38 + |a|] == b[0] && data[39 + |a|] == b[1] && data[38 + |a| + |b|] == c[0];
  }

  /** Nor does such a message name a host. */
  lemma NoBlockNoHost(minor: byte, h: Hello, after: seq<byte>)
    requires WellFormed(h) && |EncodeBare(h)| < 65536
    ensures WalkRecord(EncodeRecord(minor, EncodeBare(h)) + after) == Error
  {
    RecordBody(minor, EncodeBare(h), after);
    hide WalkHello;
    hide U16;
    hide PutU16;
    Starts8(h.sessionId);
    Starts16(h.cipherSuites);
    Starts8(h.compression);
    WalksBare(h.prefix, Vec8(h.sessionId), Vec16(h.cipherSuites), Vec8(h.compression));
  }

  lemma RecordBody(minor: byte, body: seq<byte>, after: seq<byte>)
    requires |body| < 65536
    ensures WalkRecord(EncodeRecord(minor, body) + after) == WalkHello(body)
  {
    hide U16;
    hide PutU16;
    hide WalkHello;
    var peeked := EncodeRecord(minor, body) + after;
    assert peeked == [0x16, 0x03, minor] + (PutU16(|body|) + (body + after));
    assert peeked[5..5 + |body|] == body;
  }

  lemma {:induction false} EncodeSplit(es: seq<Extension>, n: nat)
    requires n < |es| && forall e :: e in es ==> Fits(e)
    ensures EncodeExtensions(es) ==
            EncodeExtensions(es[..n]) + (EncodeExtension(es[n]) + EncodeExtensions(es[n + 1..]))
  {
    if n == 0 {
      assert es[..0] == [];
    } else {
      hide EncodeExtension;
      EncodeSplit(es[1..], n - 1);
      assert es[1..][..n - 1] == es[..n][1..];
      assert es[1..][n..] == es[n + 1..];
    }
  }

  // --- and the other way round ---

  /** A server_name body as the walker accepts it: the two list-length bytes and what follows the name are not read. */
  ghost predicate CarriesName(body: seq<byte>, name: seq<byte>) {
    exists list: seq<byte>, trailing: seq<byte> :: |list| == 2 && |name| < 65536 && body == list + [0] + PutU16(|name|) + name + trailing
  }

  ghost predicate HoldsName(data: seq<byte>, before: seq<Extension>, body: seq<byte>, rest: seq<byte>, name: seq<byte>) {
    && (forall e :: e in before ==> Fits(e) && e.kind != 0)
    && |body| < 65536 && CarriesName(body, name)
    && data == EncodeExtensions(before) + (EncodeExtension(Extension(0, body)) + rest)
  }

  lemma ReadNameSound(body: seq<byte>)
    requires ReadName(body).Host?
    ensures CarriesName(body, ReadName(body).name)
  {
    var name := ReadName(body).name;
    U16Back(body[3], body[4]);
    assert body == body[..2] + [0] + PutU16(|name|) + name + body[5 + |name|..];
  }

  /** The first extension of a block that is long enough for it. */
  lemma FirstExtension(data: seq<byte>)
    requires |data| >= 4 && |data| - 4 >= U16(data[2], data[3])
    ensures var n := U16(data[2], data[3]);
            data == EncodeExtension(Extension(U16(data[0], data[1]), data[4..4 + n])) + data[4 + n..]
  {
    hide U16;
    hide PutU16;
    U16Back(data[0], data[1]);
    U16Back(data[2], data[3]);
    var n := U16(data[2], data[3]);
    assert data == [data[0], data[1]] + ([data[2], data[3]] + data[4..4 + n]) + data[4 + n..];
  }

  lemma HoldsAtOnce(body: seq<byte>, rest: seq<byte>, name: seq<byte>)
    requires |body| < 65536 && CarriesName(body, name)
    ensures HoldsName(EncodeExtension(Extension(0, body)) + rest, [], body, rest, name)
  {
    hide CarriesName;
    hide EncodeExtension;
    var data := EncodeExtension(Extension(0, body)) + rest;
    assert [] + data == data;
  }

  lemma {:induction false} EncodeBehind(e: Extension, before: seq<Extension>, d: seq<byte>)
    requires Fits(e) && forall b :: b in before ==> Fits(b)
    ensures EncodeExtensions([e] + before) + d == EncodeExtension(e) + (EncodeExtensions(before) + d)
  {
    hide EncodeExtension;
    assert ([e] + before)[1..] == before;
  }

  /** Whenever the walker names a host, the block really is: other extensions, then that name. */
  lemma {:induction false} WalkSound(data: seq<byte>)
    returns (before: seq<Extension>, body: seq<byte>, rest: seq<byte>)
    requires WalkExtensions(data).Host?
    ensures HoldsName(data, before, body, rest, WalkExtensions(data).name)
    decreases |data|
  {
    hide U16;
    hide PutU16;
    hide ReadName;
    hide CarriesName;
    hide EncodeExtension;
    hide EncodeExtensions;
    FirstExtension(data);
    var kind, n := U16(data[0], data[1]), U16(data[2], data[3]);
    var e := Extension(kind, data[4..4 + n]);
    assert data[4..][..n] == e.body && data[4..][n..] == data[4 + n..];
    if kind == 0 {
      ReadNameSound(e.body);
      before, body, rest := [], e.body, data[4 + n..];
      HoldsAtOnce(body, rest, ReadName(body).name);
    } else {
      before, body, rest := WalkSound(data[4 + n..]);
      EncodeBehind(e, before, EncodeExtension(Extension(0, body)) + rest);
      before := [e] + before;
    }
  }

  /** And such a block makes it name that host. */
  lemma {:induction false} WalkComplete(before: seq<Extension>, body: seq<byte>, rest: seq<byte>, name: seq<byte>)
    requires forall e :: e in before ==> Fits(e) && e.kind != 0
    requires |body| < 65536 && CarriesName(body, name)
    ensures WalkExtensions(EncodeExtensions(before) + (EncodeExtension(Extension(0, body)) + rest)) == Host(name)
  {
    hide CarriesName;
    hide U16;
    WalksPast(before, EncodeExtension(Extension(0, body)) + rest);
    SkipExtension(Extension(0, body), rest);
    var d := EncodeExtension(Extension(0, body)) + rest;
    hide EncodeExtension;
    assert d[4..][..|body|] == body;
    ReadNameComplete(body, name);
  }

  /**
   The exact language of the walker on an extension block: it returns a name exactly if the block
   starts with extensions other than server_name, followed by a server_name that carries it.
   */
  lemma WalkIff(data: seq<byte>, name: seq<byte>)
    ensures WalkExtensions(data) == Host(name) <==>
            exists before, body, rest :: HoldsName(data, before, body, rest, name)
  {
    hide WalkExtensions;
    hide EncodeExtensions;
    hide EncodeExtension;
    hide CarriesName;
    if WalkExtensions(data) == Host(name) {
      var before, body, rest := WalkSound(data);
    }
    if before, body, rest :| HoldsName(data, before, body, rest, name) {
      WalkComplete(before, body, rest, name);
    }
  }

  lemma ReadNameComplete(body: seq<byte>, name: seq<byte>)
    requires CarriesName(body, name)
    ensures ReadName(body) == Host(name)
  {
    hide U16;
    hide PutU16;
    var list, trailing :| |list| == 2 && |name| < 65536 && body == list + [0] + PutU16(|name|) + name + trailing;
    assert body[5..5 + |name|] == name;
  }

  /** Where the fields of a message end that the walker gets through. */
  lemma {:induction false} HelloSplit(data: seq<byte>) returns (p: seq<byte>, a: seq<byte>, b: seq<byte>, c: seq<byte>, d: seq<byte>, rest: seq<byte>)
    requires WalkHello(data).Host?
    ensures |p| == 38 && p[0] == 1 && |a| < 256 && |b| < 65536 && |c| < 256 && |d| < 65536
    ensures data == p + Vec8(a) + Vec16(b) + Vec8(c) + Vec16(d) + rest
    ensures WalkHello(data) == WalkExtensions(d)
  {
    hide PutU16;
    hide U16;
    hide WalkExtensions;
    var o1 := 39 + data[38] as int;
    var o2 := o1 + 2 + U16(data[o1], data[o1 + 1]);
    var o3 := o2 + 1 + data[o2] as int;
    var o4 := o3 + 2 + U16(data[o3], data[o3 + 1]);
    U16Back(data[o1], data[o1 + 1]);
    U16Back(data[o3], data[o3 + 1]);
    p, a, b, c, d, rest := data[..38], data[39..o1], data[o1 + 2..o2], data[o2 + 1..o3], data[o3 + 2..o4], data[o4..];
    hide WalkHello;
    assert data[38..o1] == Vec8(a) && data[o1..o2] == Vec16(b) && data[o2..o3] == Vec8(c) && data[o3..o4] == Vec16(d);
    Pieces(data, 38, o1, o2, o3, o4);
  }

  lemma {:induction false} Pieces(data: seq<byte>, i: nat, j: nat, k: nat, l: nat, m: nat)
    requires i <= j <= k <= l <= m <= |data|
    ensures data == data[..i] + data[i..j] + data[j..k] + data[k..l] + data[l..m] + data[m..]
  {
  }

  /**
   The exact language of the walker on a message: its fields in order, each as long as its length
   says, then an extension block in which the walker finds the name, and anything behind it.
   */
  lemma {:induction false} HelloIff(data: seq<byte>, name: seq<byte>)
    ensures WalkHello(data) == Host(name) <==>
            exists p: seq<byte>, a: seq<byte>, b: seq<byte>, c: seq<byte>, d: seq<byte>, rest: seq<byte> ::
              && |p| == 38 && p[0] == 1 && |a| < 256 && |b| < 65536 && |c| < 256 && |d| < 65536
              && data == p + Vec8(a) + Vec16(b) + Vec8(c) + Vec16(d) + rest && WalkExtensions(d) == Host(name)
  {
    hide WalkHello;
    hide WalkExtensions;
    hide Vec8;
    hide Vec16;
    if WalkHello(data) == Host(name) {
      var p, a, b, c, d, rest := HelloSplit(data);
    }
    if p: seq<byte>, a: seq<byte>, b: seq<byte>, c: seq<byte>, d: seq<byte>, rest: seq<byte> :|
        && |p| == 38 && p[0] == 1 && |a| < 256 && |b| < 65536 && |c| < 256 && |d| < 65536
        && data == p + Vec8(a) + Vec16(b) + Vec8(c) + Vec16(d) + rest && WalkExtensions(d) == Host(name) {
      WalksWith(p, a, b, c, d, rest);
    }
  }

  /** What follows the extension block is not looked at. */
  lemma {:induction false} WalksWith(p: seq<byte>, a: seq<byte>, b: seq<byte>, c: seq<byte>, d: seq<byte>, rest: seq<byte>)
    requires |p| == 38 && p[0] == 1 && |a| < 256 && |b| < 65536 && |c| < 256 && |d| < 65536
    ensures WalkHello(p + Vec8(a) + Vec16(b) + Vec8(c) + Vec16(d) + rest) == WalkExtensions(d)
  {
    Starts8(a);
    Starts16(b);
    Starts8(c);
    Starts16(d);
    var e, f, g, h := Vec8(a), Vec16(b), Vec8(c), Vec16(d);
    hide *;
    Behind(h, d, rest);
    WalksFields(p, e, f, g, h + rest);
    assert p + e + f + g + h + rest == p + e + f + g + (h + rest);
  }

  lemma {:induction false} Behind(h: seq<byte>, d: seq<byte>, rest: seq<byte>)
    requires |h| == 2 + |d| && h[2..] == d && U16(h[0], h[1]) == |d|
    ensures var all := h + rest;
            |all| >= 2 + |d| && U16(all[0], all[1]) == |d| && all[2..2 + |d|] == d
  {
    hide U16;
    assert (h + rest)[2..2 + |d|] == h[2..];
  }

  /** The exact language of the walker on a stream: a handshake record with such a message, whole. */
  lemma {:induction false} RecordIff(peeked: seq<byte>, name: seq<byte>)
    ensures WalkRecord(peeked) == Host(name) <==>
            exists minor: byte, body: seq<byte>, after: seq<byte> ::
              |body| < 65536 && peeked == EncodeRecord(minor, body) + after && WalkHello(body) == Host(name)
  {
    hide WalkHello;
    hide PutU16;
    hide U16;
    if WalkRecord(peeked) == Host(name) {
      var n := U16(peeked[3], peeked[4]);
      var body, after := peeked[5..5 + n], peeked[5 + n..];
      U16Back(peeked[3], peeked[4]);
      assert peeked == [0x16, 0x03, peeked[2]] + ([peeked[3], peeked[4]] + body) + after;
      assert peeked == EncodeRecord(peeked[2], body) + after;
    }
    if minor: byte, body: seq<byte>, after: seq<byte> :|
        |body| < 65536 && peeked == EncodeRecord(minor, body) + after && WalkHello(body) == Host(name) {
      RecordBody(minor, body, after);
    }
  }

  /** A record byte by byte: one extension, the name "a". */
  lemma {:induction false} OneHello(prefix: seq<byte>)
    requires |prefix| == 38 && prefix[0] == 1
    ensures WalkRecord([0x16, 0x03, 0x01, 0x00, 0x38] + prefix +
                       [0x00, 0x00, 0x00, 0x00, 0x00, 0x0a, 0x00, 0x00, 0x00, 0x06, 0x00, 0x04, 0x00, 0x00, 0x01, 0x61,
                        0x00, 0x00]) == Host([0x61])
  {
    var head: seq<byte> := [0x16, 0x03, 0x01, 0x00, 0x38];
    var block: seq<byte> := [0x00, 0x00, 0x00, 0x06, 0x00, 0x04, 0x00, 0x00, 0x01, 0x61];
    var tail: seq<byte> := [0x00, 0x00, 0x00, 0x00, 0x00, 0x0a, 0x00, 0x00, 0x00, 0x06, 0x00, 0x04, 0x00, 0x00, 0x01, 0x61,
                            0x00, 0x00];
    var body := prefix + tail;
    assert (head + prefix + tail)[5..61] == body;
    assert tail[6..16] == block && body[44..54] == tail[6..16];
    assert block[4..][..6] == block[4..10];
    assert WalkExtensions(block) == Host([0x61]);
  }
}
