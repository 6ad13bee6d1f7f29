/**
 Bytes, big-endian 16-bit fields and the flattening of a list of chunks.
 */
module Bytes {

  newtype byte = x: int | 0 <= x < 256

  function Min(a: nat, b: nat): nat {
    if a <= b then a else b
  }

  /** binary.BigEndian.Uint16 of two bytes. */
  function U16(hi: byte, lo: byte): (n: nat)
    ensures n < 65536
  {
    (hi as int) * 256 + (lo as int)
  }

  /** Two bytes are determined by their value. */
  lemma U16Unique(a: seq<byte>, b: seq<byte>)
    requires |a| == |b| == 2 && U16(a[0], a[1]) == U16(b[0], b[1])
    ensures a == b
  {
  }

  lemma U16Exists(n: nat)
    requires n < 65536
    ensures exists s: seq<byte> :: |s| == 2 && U16(s[0], s[1]) == n
  {
    var s := [(n / 256) as byte, (n % 256) as byte];
    assert |s| == 2 && U16(s[0], s[1]) == n;
  }

  /** binary.BigEndian.PutUint16: the two bytes of a 16-bit value. */
  function PutU16(n: nat): (s: seq<byte>)
    requires n < 65536
    ensures |s| == 2 && U16(s[0], s[1]) == n
  {
    U16Exists(n);
    assert forall a: seq<byte>, b: seq<byte> :: |a| == |b| == 2 && U16(a[0], a[1]) == U16(b[0], b[1]) ==> a == b by {
      forall a: seq<byte>, b: seq<byte> | |a| == |b| == 2 && U16(a[0], a[1]) == U16(b[0], b[1])
        ensures a == b
      {
        U16Unique(a, b);
      }
    }
    var s: seq<byte> :| |s| == 2 && U16(s[0], s[1]) == n;
    s
  }

  lemma U16Back(hi: byte, lo: byte)
    ensures PutU16(U16(hi, lo)) == [hi, lo]
  {
    U16Unique(PutU16(U16(hi, lo)), [hi, lo]);
  }

  /** The first byte is the more significant one: fields compare as their bytes do. */
  lemma U16Order(a: byte, b: byte, c: byte, d: byte)
    ensures U16(a, b) < U16(c, d) <==> a < c || (a == c && b < d)
    ensures U16(0, b) == b as int
  {
  }

  lemma U16Value(hi: byte, lo: byte)
    ensures U16(hi, lo) == hi as int * 256 + lo as int
  {
  }

  /** The bytes on the wire. */
  lemma PutU16Bytes(n: nat)
    requires n < 65536
    ensures PutU16(n) == [(n / 256) as byte, (n % 256) as byte]
  {
    var hi, lo := (n / 256) as byte, (n % 256) as byte;
    assert U16(hi, lo) == n;
    U16Unique(PutU16(n), [hi, lo]);
  }

  /** The bytes of the elements of a list, in order; every flattening below is one of these. */
  function Gather<T>(bytes: T -> seq<byte>, xs: seq<T>): seq<byte> {
    if xs == [] then [] else bytes(xs[0]) + Gather(bytes, xs[1..])
  }

  lemma {:induction false} GatherAppend<T>(bytes: T -> seq<byte>, a: seq<T>, b: seq<T>)
    ensures Gather(bytes, a + b) == Gather(bytes, a) + Gather(bytes, b)
  {
    if a == [] {
      assert a + b == b;
    } else {
      assert (a + b)[1..] == a[1..] + b;
      GatherAppend(bytes, a[1..], b);
    }
  }

  lemma GatherOne<T>(bytes: T -> seq<byte>, x: T)
    ensures Gather(bytes, [x]) == bytes(x)
  {
    assert Gather(bytes, [x]) == bytes(x) + Gather(bytes, []);
  }

  lemma GatherSnoc<T>(bytes: T -> seq<byte>, a: seq<T>, x: T)
    ensures Gather(bytes, a + [x]) == Gather(bytes, a) + bytes(x)
  {
    GatherAppend(bytes, a, [x]);
    GatherOne(bytes, x);
  }

  function Whole(chunk: seq<byte>): seq<byte> {
    chunk
  }

  /** The bytes of a list of chunks, in order. */
  function Flatten(chunks: seq<seq<byte>>): seq<byte> {
    Gather(Whole, chunks)
  }
}
