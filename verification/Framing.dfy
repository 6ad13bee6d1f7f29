/**
 The v2.2 packet framing over WebSocket messages, in the clear and sealed.
 */
module Framing {
  import opened Wrappers
  import opened Bytes

  datatype Packet = Packet(streamId: nat, flag: byte, payload: seq<byte>)

  const MAX_PAYLOAD: nat := 65532

  predicate Writable(p: Packet) {
    p.streamId < 65536 && |p.payload| <= MAX_PAYLOAD
  }

  function Encode(p: Packet): seq<byte>
    requires Writable(p)
  {
    PutU16(3 + |p.payload|) + (PutU16(p.streamId) + ([p.flag] + p.payload))
  }

  ghost predicate AllWritable(ps: seq<Packet>) {
    forall p :: p in ps ==> Writable(p)
  }

  ghost function EncodeAll(ps: seq<Packet>): seq<byte>
    requires AllWritable(ps)
  {
    if ps == [] then [] else Encode(ps[0]) + EncodeAll(ps[1..])
  }

  /** Why ReadPacket gave no packet: the stream ended at the length, a length below 3, or in the content. */
  datatype Read = Got(packet: Packet) | Eof | Invalid | Truncated

  /** The packet at the front of s, and what follows it. */
  function Decode(s: seq<byte>): (Read, seq<byte>) {
    if |s| < 2 then (Eof, [])
    else
      var n := U16(s[0], s[1]);
      if n < 3 then (Invalid, s[2..])
      else if |s| < 2 + n then (Truncated, [])
      else (Got(Packet(U16(s[2], s[3]), s[4], s[5..2 + n])), s[2 + n..])
  }

  lemma DecodeEncode(p: Packet, rest: seq<byte>)
    requires Writable(p)
    ensures Decode(Encode(p) + rest) == (Got(p), rest)
  {
    hide U16;
    hide PutU16;
    var n := 3 + |p.payload|;
    var s := Encode(p) + rest;
    assert s[0] == PutU16(n)[0] && s[1] == PutU16(n)[1];
    assert s[2] == PutU16(p.streamId)[0] && s[3] == PutU16(p.streamId)[1] && s[4] == p.flag;
    assert s[5..2 + n] == p.payload && s[2 + n..] == rest;
  }

  /** Framing wastes nothing: a decoded packet encodes to the very bytes it came from. */
  lemma EncodeDecode(s: seq<byte>)
    requires Decode(s).0.Got?
    ensures Writable(Decode(s).0.packet) && Encode(Decode(s).0.packet) + Decode(s).1 == s
  {
    var n := U16(s[0], s[1]);
    U16Back(s[0], s[1]);
    U16Back(s[2], s[3]);
    hide U16;
    hide PutU16;
    assert s == [s[0], s[1]] + ([s[2], s[3]] + ([s[4]] + s[5..2 + n])) + s[2 + n..];
  }

  /** The fields on the wire, in this order: content length, stream ID, flag, payload. */
  ghost predicate OnWire(p: Packet, s: seq<byte>) {
    && |s| == 5 + |p.payload|
    && s[0] as int * 256 + s[1] as int == 3 + |p.payload|
    && s[2] as int * 256 + s[3] as int == p.streamId
    && s[4] == p.flag && s[5..] == p.payload
  }

  lemma EncodeOnWire(p: Packet)
    requires Writable(p)
    ensures OnWire(p, Encode(p))
  {
    var a, b := PutU16(3 + |p.payload|), PutU16(p.streamId);
    assert U16(a[0], a[1]) == a[0] as int * 256 + a[1] as int && U16(b[0], b[1]) == b[0] as int * 256 + b[1] as int;
    hide U16;
    hide PutU16;
    assert Encode(p)[5..] == p.payload;
  }

  /** Nothing else on the wire is read as that packet. */
  lemma OnWireIff(p: Packet, s: seq<byte>, rest: seq<byte>)
    ensures Decode(s) == (Got(p), rest) <==> exists frame :: OnWire(p, frame) && |p.payload| <= 65532 && s == frame + rest
  {
    if Decode(s) == (Got(p), rest) {
      EncodeDecode(s);
      EncodeOnWire(p);
      assert s == Encode(p) + rest;
    }
    if frame :| OnWire(p, frame) && |p.payload| <= 65532 && s == frame + rest {
      assert Writable(p);
      EncodeOnWire(p);
      assert frame == frame[..5] + frame[5..] && Encode(p) == Encode(p)[..5] + Encode(p)[5..];
      assert frame[..5] == Encode(p)[..5];
      DecodeEncode(p, rest);
    }
  }

  /** Errors: more bytes can complete a stream that ended too early, and none can repair a length below 3. */
  lemma ErrorsOnWire(s: seq<byte>)
    ensures Decode(s).0 == Eof <==> |s| < 2
    ensures Decode(s).0 == Invalid <==> |s| >= 2 && s[0] == 0 && s[1] < 3
    ensures Decode(s).0 == Truncated ==> exists more :: Decode(s + more).0.Got? && Decode(s + more).1 == []
  {
    if Decode(s).0 == Truncated {
      var n := U16(s[0], s[1]);
      var more := seq(2 + n - |s|, i => 0 as byte);
      assert (s + more)[2 + n..] == [];
      assert Decode(s + more).0.Got?;
    }
  }

  // --- writing ---

  /** WritePacket fills one array and writes it in one piece. */
  method WritePacket(p: Packet) returns (out: Option<seq<byte>>)
    requires p.streamId < 65536
    ensures out.Some? <==> |p.payload| <= 65532
    ensures out.Some? ==> out.value == Encode(p) && OnWire(p, out.value)
  {
    var contentLen := 2 + 1 + |p.payload|;
    if contentLen > 65535 {
      return None;
    }
    var buf := new byte[2 + contentLen];
    PutUint16(buf, 0, contentLen);
    PutUint16(buf, 2, p.streamId);
    buf[4] := p.flag;
    forall i | 0 <= i < |p.payload| {
      buf[5 + i] := p.payload[i];
    }
    assert buf[..] == Encode(p);
    EncodeOnWire(p);
    return Some(buf[..]);
  }

  method PutUint16(buf: array<byte>, at: nat, n: nat)
    requires at + 2 <= buf.Length && n < 65536
    modifies buf
    ensures buf[at] == PutU16(n)[0] && buf[at + 1] == PutU16(n)[1]
    ensures forall i :: 0 <= i < buf.Length && i != at && i != at + 1 ==> buf[i] == old(buf[i])
  {
    buf[at], buf[at + 1] := PutU16(n)[0], PutU16(n)[1];
  }

  // --- reading over WebSocket ---

  datatype Message = Binary(data: seq<byte>) | Text

  /** Neither text nor an empty message, both of which end a read with an error. */
  predicate Clean(ms: seq<Message>) {
    forall i :: 0 <= i < |ms| ==> ms[i].Binary? && ms[i].data != []
  }

  /** The bytes up to the first message that is not clean. */
  function Readable(ms: seq<Message>): seq<byte> {
    if ms == [] || ms[0].Text? || ms[0].data == [] then [] else ms[0].data + Readable(ms[1..])
  }

  /** A text or an empty message ends what can be read, whatever comes behind it. */
  lemma {:induction false} ReadableUntil(ms: seq<Message>, m: Message, rest: seq<Message>)
    requires Clean(ms) && (m.Text? || m.data == [])
    ensures Readable(ms + [m] + rest) == Readable(ms)
    ensures |Readable(ms)| >= |ms|
  {
    if ms == [] {
      assert [] + [m] + rest == [m] + rest;
    } else {
      assert (ms + [m] + rest)[1..] == ms[1..] + [m] + rest;
      ReadableUntil(ms[1..], m, rest);
    }
  }

  function Cut(chunks: seq<seq<byte>>): seq<Message> {
    seq(|chunks|, i requires 0 <= i < |chunks| => Binary(chunks[i]))
  }

  /** A stream that is cut into non-empty messages is readable to its end, wherever the cuts are. */
  lemma {:induction false} CutReadable(chunks: seq<seq<byte>>)
    requires forall i :: 0 <= i < |chunks| ==> chunks[i] != []
    ensures Clean(Cut(chunks)) && Readable(Cut(chunks)) == Flatten(chunks)
  {
    if chunks == [] {
    } else {
      CutReadable(chunks[1..]);
      assert Cut(chunks)[1..] == Cut(chunks[1..]);
    }
  }

  /** WebSocketConnAdapter: a read buffer that one message at a time refills. */
  class Adapter {
    var readBuffer: seq<byte>
    var incoming: seq<Message>

    constructor (incoming: seq<Message>)
      ensures this.incoming == incoming && readBuffer == []
    {
      this.incoming, readBuffer := incoming, [];
    }

    /** What can be read before an error. */
    ghost function Pending(): seq<byte>
      reads this
    {
      readBuffer + Readable(incoming)
    }

    /** An empty message leaves the buffer empty, and bytes.Buffer then reports EOF unless nothing is wanted. */
    method Read(want: nat) returns (ok: bool, out: seq<byte>)
      modifies this
      ensures want > 0 ==> (ok <==> old(Pending()) != [])
      ensures want == 0 ==> (ok <==> old(readBuffer) != [] || (old(incoming) != [] && old(incoming)[0].Binary?))
      ensures ok ==> Min(want, 1) <= |out| <= want
      ensures ok && (want > 0 || old(Clean(incoming))) ==> out + Pending() == old(Pending())
      ensures old(Clean(incoming)) ==> Clean(incoming)
      ensures !ok ==> out == [] && (old(Clean(incoming)) ==> Pending() == old(Pending()) == [])
    {
      out := [];
      if |readBuffer| == 0 {
        if |incoming| == 0 {
          return false, out;
        }
        var m := incoming[0];
        incoming := incoming[1..];
        if m.Text? {
          return false, out;
        }
        readBuffer := m.data;
      }
      if |readBuffer| == 0 {
        return want == 0, out;
      }
      var n := Min(want, |readBuffer|);
      ghost var was := readBuffer;
      out := readBuffer[..n];
      readBuffer := readBuffer[n..];
      assert was == out + readBuffer;
      ok := true;
    }

    method ReadFull(k: nat) returns (ok: bool, out: seq<byte>)
      modifies this
      ensures ok <==> |old(Pending())| >= k
      ensures ok ==> |out| == k && out + Pending() == old(Pending())
      ensures old(Clean(incoming)) ==> Clean(incoming) && (!ok ==> Pending() == [])
    {
      hide Clean;
      out := [];
      while |out| < k
        invariant |out| <= k && out + Pending() == old(Pending())
        invariant old(Clean(incoming)) ==> Clean(incoming)
        decreases k - |out|
      {
        var more;
        ok, more := Read(k - |out|);
        if !ok {
          return;
        }
        out := out + more;
      }
      ok := true;
    }

    /** ReadPacket: however the messages cut the stream, it reads what the joined stream says. */
    method ReadPacket() returns (r: Read)
      modifies this
      ensures r == Decode(old(Pending())).0
      ensures r.Got? ==> Pending() == Decode(old(Pending())).1
      ensures old(Clean(incoming)) ==> Clean(incoming) && (r == Eof ==> Pending() == [])
    {
      hide U16;
      hide Clean;
      hide Readable;
      ghost var s := Pending();
      var ok, len := ReadFull(2);
      if !ok {
        return Eof;
      }
      assert len[0] == s[0] && len[1] == s[1] && Pending() == s[2..];
      var n := U16(len[0], len[1]);
      if n < 3 {
        return Invalid;
      }
      var data;
      ok, data := ReadFull(n);
      if !ok {
        return Truncated;
      }
      assert data == s[2..2 + n] && Pending() == s[2 + n..];
      r := Got(Packet(U16(data[0], data[1]), data[2], data[3..]));
      assert data[3..] == s[5..2 + n];
    }
  }

  /** s is the encoded form of ps. */
  ghost predicate Frames(ps: seq<Packet>, s: seq<byte>) {
    AllWritable(ps) && s == EncodeAll(ps)
  }

  /** The first packet of an encoded stream. */
  lemma FirstDecodes(ps: seq<Packet>, s: seq<byte>)
    requires Frames(ps, s)
    ensures ps == [] ==> Decode(s) == (Eof, [])
    ensures ps != [] ==> Decode(s).0 == Got(ps[0]) && Frames(ps[1..], Decode(s).1)
  {
    if ps == [] {
      NothingDecodes();
    } else {
      assert ps[0] in ps && forall p :: p in ps[1..] ==> p in ps;
      DecodeEncode(ps[0], EncodeAll(ps[1..]));
    }
  }

  /** Any sequence of packets, carried as any cut into non-empty messages, is read back as it was. */
  method ReadAll(a: Adapter, ghost ps: seq<Packet>) returns (out: seq<Packet>)
    requires Frames(ps, a.Pending())
    modifies a
    ensures out == ps && (old(Clean(a.incoming)) ==> a.Pending() == [])
  {
    out := [];
    ghost var left := ps;
    hide *;
    while true
      invariant old(Clean(a.incoming)) ==> Clean(a.incoming)
      invariant Frames(left, a.Pending())
      invariant |out| + |left| == |ps| && out == ps[..|out|] && left == ps[|out|..]
      decreases |left|
    {
      FirstDecodes(left, a.Pending());
      var r := a.ReadPacket();
      if !r.Got? {
        return;
      }
      out := out + [r.packet];
      left := left[1..];
    }
  }

  lemma NothingDecodes()
    ensures Decode([]) == (Eof, [])
  {
  }

  // --- sealed packets ---

  /** An AEAD as the framing sees it: seal prepends the nonce and appends the tag. */
  datatype Aead = Aead(overhead: nat, seal: (seq<byte>, seq<byte>) -> seq<byte>, open: seq<byte> -> Option<seq<byte>>)

  ghost predicate Lawful(c: Aead) {
    forall nonce, m :: c.open(c.seal(nonce, m)) == Some(m) && |c.seal(nonce, m)| == |m| + c.overhead
  }

  function Sealed(c: Aead, nonce: seq<byte>, p: Packet): Packet {
    if p.payload == [] then p else p.(payload := c.seal(nonce, p.payload))
  }

  function Opened(c: Aead, p: Packet): Option<Packet> {
    if p.payload == [] then Some(p)
    else
      match c.open(p.payload)
      case None => None
      case Some(m) => Some(p.(payload := m))
  }

  /** Sealing and opening cancel, for empty payloads too, which are never sealed. */
  lemma OpenedSealed(c: Aead, nonce: seq<byte>, p: Packet)
    requires Lawful(c)
    ensures Opened(c, Sealed(c, nonce, p)) == Some(p)
    ensures |Sealed(c, nonce, p).payload| == if p.payload == [] then 0 else |p.payload| + c.overhead
  {
  }

  /** A packet object: WriteSecurePacket replaces its payload in place. */
  class PacketBox {
    var packet: Packet

    constructor (packet: Packet)
      ensures this.packet == packet
    {
      this.packet := packet;
    }
  }

  /** Succeeds exactly if the sealed payload still fits; the packet stays sealed either way. */
  method WriteSecurePacket(p: PacketBox, c: Aead, nonce: seq<byte>) returns (out: Option<seq<byte>>)
    requires Lawful(c) && p.packet.streamId < 65536
    modifies p
    ensures p.packet == Sealed(c, nonce, old(p.packet))
    ensures out.Some? <==> old(p.packet).payload == [] || |old(p.packet).payload| + c.overhead <= MAX_PAYLOAD
    ensures out.Some? ==> Writable(p.packet) && out.value == Encode(p.packet)
  {
    OpenedSealed(c, nonce, p.packet);
    if |p.packet.payload| > 0 {
      p.packet := p.packet.(payload := c.seal(nonce, p.packet.payload));
    }
    out := WritePacket(p.packet);
  }

  datatype SecureRead = Packets(packet: Packet) | Unreadable(why: Read) | BadSeal

  function OpenedRead(c: Aead, r: Read): SecureRead {
    if !r.Got? then Unreadable(r)
    else
      match Opened(c, r.packet)
      case None => BadSeal
      case Some(p) => Packets(p)
  }

  method ReadSecurePacket(a: Adapter, c: Aead) returns (r: SecureRead)
    modifies a
    ensures r == OpenedRead(c, Decode(old(a.Pending())).0)
    ensures r.Packets? ==> a.Pending() == Decode(old(a.Pending())).1
    ensures old(Clean(a.incoming)) ==> Clean(a.incoming) && (r == Unreadable(Eof) ==> a.Pending() == [])
  {
    hide Decode;
    hide Clean;
    var raw := a.ReadPacket();
    if !raw.Got? {
      return Unreadable(raw);
    }
    var p := raw.packet;
    if |p.payload| > 0 {
      var m := c.open(p.payload);
      if m.None? {
        return BadSeal;
      }
      p := p.(payload := m.value);
    }
    return Packets(p);
  }

  /** Sealing twice is undone by opening once exactly if there was nothing to seal. */
  lemma SealedTwice(c: Aead, n1: seq<byte>, n2: seq<byte>, p: Packet)
    requires Lawful(c) && c.overhead > 0
    ensures Opened(c, Sealed(c, n2, Sealed(c, n1, p))) == Some(Sealed(c, n1, p))
    ensures Sealed(c, n1, p) == p <==> p.payload == []
  {
    OpenedSealed(c, n2, Sealed(c, n1, p));
    OpenedSealed(c, n1, p);
  }

  /**
   One packet object written twice, and the second copy read.  The object stays sealed after the
   first write, so the reader gets back what was written if and only if the payload is empty.
   */
  method Resend(p: PacketBox, c: Aead, n1: seq<byte>, n2: seq<byte>) returns (r: Option<SecureRead>)
    requires Lawful(c) && c.overhead > 0 && p.packet.streamId < 65536
    modifies p
    ensures r.Some? <==> old(p.packet).payload == [] || |old(p.packet).payload| + 2 * c.overhead <= MAX_PAYLOAD
    ensures r.Some? ==> r.value == Packets(Sealed(c, n1, old(p.packet)))
    ensures r.Some? ==> (r.value == Packets(old(p.packet)) <==> old(p.packet).payload == [])
  {
    SealedTwice(c, n1, n2, p.packet);
    OpenedSealed(c, n1, p.packet);
    var first := WriteSecurePacket(p, c, n1);
    hide Sealed;
    hide Opened;
    var second := WriteSecurePacket(p, c, n2);
    if second.None? {
      return None;
    }
    DecodeEncode(p.packet, []);
    assert second.value != [];
    hide Encode;
    hide Decode;
    var a := new Adapter([Binary(second.value)]);
    assert Readable([Binary(second.value)]) == second.value + Readable([]);
    assert a.Pending() == second.value == Encode(p.packet) + [];
    var got := ReadSecurePacket(a, c);
    return Some(got);
  }

  function SealAll(c: Aead, nonces: seq<seq<byte>>, ps: seq<Packet>): seq<Packet>
    requires |nonces| == |ps|
  {
    if ps == [] then [] else [Sealed(c, nonces[0], ps[0])] + SealAll(c, nonces[1..], ps[1..])
  }

  /** s is the sealed form of ps. */
  ghost predicate Carries(c: Aead, nonces: seq<seq<byte>>, ps: seq<Packet>, s: seq<byte>) {
    |nonces| == |ps| && Frames(SealAll(c, nonces, ps), s)
  }

  /** The first packet of a sealed stream opens to the first packet that was sealed. */
  lemma FirstOpens(c: Aead, nonces: seq<seq<byte>>, ps: seq<Packet>, s: seq<byte>)
    requires Lawful(c) && Carries(c, nonces, ps, s)
    ensures ps == [] ==> OpenedRead(c, Decode(s).0) == Unreadable(Eof)
    ensures ps != [] ==> OpenedRead(c, Decode(s).0) == Packets(ps[0]) && Carries(c, nonces[1..], ps[1..], Decode(s).1)
  {
    var sealed := SealAll(c, nonces, ps);
    FirstDecodes(sealed, s);
    if ps != [] {
      OpenedSealed(c, nonces[0], ps[0]);
      assert sealed[1..] == SealAll(c, nonces[1..], ps[1..]);
    }
  }

  /** One read on a sealed stream. */
  method ReadNext(a: Adapter, c: Aead, ghost nonces: seq<seq<byte>>, ghost ps: seq<Packet>) returns (p: Option<Packet>)
    requires Lawful(c) && Carries(c, nonces, ps, a.Pending())
    modifies a
    ensures if ps == [] then p == None else p == Some(ps[0]) && |nonces| == |ps| && Carries(c, nonces[1..], ps[1..], a.Pending())
    ensures old(Clean(a.incoming)) ==> Clean(a.incoming) && (p == None ==> a.Pending() == [])
  {
    FirstOpens(c, nonces, ps, a.Pending());
    assert |nonces| == |ps|;
    hide *;
    var r := ReadSecurePacket(a, c);
    p := if r.Packets? then Some(r.packet) else None;
  }

  /** The sealed form of the round trip, over any cut into messages. */
  method ReadAllSecure(a: Adapter, c: Aead, ghost nonces: seq<seq<byte>>, ghost ps: seq<Packet>)
    returns (out: seq<Packet>)
    requires Lawful(c) && Carries(c, nonces, ps, a.Pending())
    modifies a
    ensures out == ps && (old(Clean(a.incoming)) ==> a.Pending() == [])
  {
    out := [];
    ghost var left, keys := ps, nonces;
    hide *;
    while true
      invariant old(Clean(a.incoming)) ==> Clean(a.incoming)
      invariant Carries(c, keys, left, a.Pending())
      invariant |out| + |left| == |ps| && out == ps[..|out|] && left == ps[|out|..]
      decreases |left|
    {
      var p := ReadNext(a, c, keys, left);
      if p.None? {
        return;
      }
      out := out + [p.value];
      left, keys := left[1..], keys[1..];
    }
  }

  // --- end to end ---

  /** Any way of cutting a stream into non-empty messages. */
  ghost predicate Splits(split: seq<byte> -> seq<seq<byte>>) {
    forall s :: Flatten(split(s)) == s && forall i :: 0 <= i < |split(s)| ==> split(s)[i] != []
  }

  lemma {:induction false} EncodeSnoc(ps: seq<Packet>, p: Packet)
    requires AllWritable(ps) && Writable(p)
    ensures AllWritable(ps + [p]) && EncodeAll(ps + [p]) == EncodeAll(ps) + Encode(p)
  {
    hide Encode;
    if ps == [] {
      assert EncodeAll([p]) == Encode(p) + EncodeAll([]);
      assert ps + [p] == [p];
    } else {
      assert (ps + [p])[1..] == ps[1..] + [p];
      EncodeSnoc(ps[1..], p);
    }
  }

  /** The stream of one WritePacket after the other; it ends at a packet that is too long. */
  method WriteAll(ps: seq<Packet>) returns (out: Option<seq<byte>>)
    requires forall p :: p in ps ==> p.streamId < 65536
    ensures out.Some? <==> AllWritable(ps)
    ensures out.Some? ==> Frames(ps, out.value)
  {
    var stream := [];
    assert ps[..0] == [];
    for i := 0 to |ps|
      invariant Frames(ps[..i], stream)
    {
      assert ps[i] in ps;
      var one := WritePacket(ps[i]);
      if one.None? {
        return None;
      }
      EncodeSnoc(ps[..i], ps[i]);
      assert ps[..i + 1] == ps[..i] + [ps[i]];
      stream := stream + one.value;
    }
    assert ps[..|ps|] == ps;
    return Some(stream);
  }

  /** What is written arrives: any packets, however the stream is cut into messages. */
  method RoundTrip(ps: seq<Packet>, split: seq<byte> -> seq<seq<byte>>) returns (out: Option<seq<Packet>>)
    requires Splits(split) && forall p :: p in ps ==> p.streamId < 65536
    ensures if AllWritable(ps) then out == Some(ps) else out == None
  {
    var stream := WriteAll(ps);
    if stream.None? {
      return None;
    }
    var chunks := split(stream.value);
    CutReadable(chunks);
    var a := new Adapter(Cut(chunks));
    hide Frames;
    var got := ReadAll(a, ps);
    return Some(got);
  }

  /** A packet whose sealed form can be written. */
  predicate Sealable(c: Aead, p: Packet) {
    p.payload == [] || |p.payload| + c.overhead <= MAX_PAYLOAD
  }

  lemma {:induction false} SealSnoc(c: Aead, nonces: seq<seq<byte>>, ps: seq<Packet>, nonce: seq<byte>, p: Packet)
    requires |nonces| == |ps|
    ensures SealAll(c, nonces + [nonce], ps + [p]) == SealAll(c, nonces, ps) + [Sealed(c, nonce, p)]
  {
    hide Sealed;
    if ps == [] {
      assert ps + [p] == [p] && nonces + [nonce] == [nonce];
      assert SealAll(c, [nonce], [p]) == [Sealed(c, nonce, p)] + SealAll(c, [], []);
    } else {
      assert (ps + [p])[1..] == ps[1..] + [p] && (nonces + [nonce])[1..] == nonces[1..] + [nonce];
      SealSnoc(c, nonces[1..], ps[1..], nonce, p);
    }
  }

  /** One WriteSecurePacket more. */
  lemma CarriesSnoc(c: Aead, nonces: seq<seq<byte>>, ps: seq<Packet>, s: seq<byte>, nonce: seq<byte>, p: Packet)
    requires Carries(c, nonces, ps, s) && Writable(Sealed(c, nonce, p))
    ensures Carries(c, nonces + [nonce], ps + [p], s + Encode(Sealed(c, nonce, p)))
  {
    SealSnoc(c, nonces, ps, nonce, p);
    EncodeSnoc(SealAll(c, nonces, ps), Sealed(c, nonce, p));
  }

  /** A new packet object for every packet, as the callers make them. */
  method WriteAllSecure(ps: seq<Packet>, c: Aead, nonces: seq<seq<byte>>) returns (out: Option<seq<byte>>)
    requires Lawful(c) && |nonces| == |ps| && forall p :: p in ps ==> p.streamId < 65536
    ensures out.Some? <==> forall p :: p in ps ==> Sealable(c, p)
    ensures out.Some? ==> Carries(c, nonces, ps, out.value)
  {
    var stream := [];
    assert ps[..0] == [] && nonces[..0] == [];
    assert Carries(c, nonces[..0], ps[..0], stream);
    for i := 0 to |ps|
      invariant Carries(c, nonces[..i], ps[..i], stream)
      invariant forall k :: 0 <= k < i ==> Sealable(c, ps[k])
    {
      assert ps[i] in ps;
      hide Carries;
      hide Encode;
      var box := new PacketBox(ps[i]);
      var one := WriteSecurePacket(box, c, nonces[i]);
      if one.None? {
        return None;
      }
      CarriesSnoc(c, nonces[..i], ps[..i], stream, nonces[i], ps[i]);
      assert ps[..i + 1] == ps[..i] + [ps[i]] && nonces[..i + 1] == nonces[..i] + [nonces[i]];
      stream := stream + one.value;
    }
    assert ps[..|ps|] == ps && nonces[..|ps|] == nonces;
    return Some(stream);
  }

  /** The sealed form of the round trip succeeds exactly if every payload is empty or fits with its overhead. */
  method RoundTripSecure(ps: seq<Packet>, c: Aead, nonces: seq<seq<byte>>, split: seq<byte> -> seq<seq<byte>>)
    returns (out: Option<seq<Packet>>)
    requires Lawful(c) && |nonces| == |ps| && Splits(split) && forall p :: p in ps ==> p.streamId < 65536
    ensures if forall p :: p in ps ==> Sealable(c, p) then out == Some(ps) else out == None
  {
    var stream := WriteAllSecure(ps, c, nonces);
    if stream.None? {
      return None;
    }
    var chunks := split(stream.value);
    CutReadable(chunks);
    var a := new Adapter(Cut(chunks));
    hide Carries;
    hide Lawful;
    var got := ReadAllSecure(a, c, nonces, ps);
    return Some(got);
  }
}
