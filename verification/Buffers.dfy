/**
 The pooled buffers: a pool of byte arrays, and a Buffer with two cursors into an array it holds.

 Ownership is kept in one place.  The ghost map `Pool.view` names every live buffer, that is,
 every buffer made and not yet released, and says what it holds; `Pool.Valid` ties that map to the
 heap, and says that no array is held by two buffers, is free while held, or is free twice.
 An operation states its effect as a change of `Pool.view`, so it also says what it leaves alone.
 */
module Buffers {
  import opened Bytes

  /** Size of a regular buffer. */
  const SIZE: nat := 8192

  /** What a Buffer holds, as a value: its unread bytes, where they start and how long v is. */
  datatype View = View(data: seq<byte>, start: nat, vlen: nat) {
    function End(): nat { start + |data| }
  }

  /** A slice []byte: the array from its first byte on, and a length.  Its capacity is arr.Length. */
  datatype Slice = Slice(arr: array<byte>, len: nat)

  class Pool {
    var free: seq<array<byte>>
    ghost var view: map<Buffer, View>
    /** The live buffer that holds an array. */
    ghost var holder: map<array<byte>, Buffer>
    ghost var Repr: set<object>

    ghost predicate Valid()
      reads this, Repr
    {
      && this in Repr
      && (forall b :: b in view ==>
            b in Repr && b.v in Repr && b.v in holder && holder[b.v] == b && b.Is(view[b]))
      && (forall a :: a in holder ==> a in Repr)
      && (forall i :: 0 <= i < |free| ==> free[i] in Repr && free[i].Length == SIZE && free[i] !in holder)
      && (forall i, j :: 0 <= i < j < |free| ==> free[i] != free[j])
    }

    constructor ()
      ensures Valid() && fresh(Repr) && free == [] && view == map[]
    {
      free, view, holder := [], map[], map[];
      Repr := {this};
    }

    /** sync.Pool.Get: any free array, or a new one, at the pool's own choice. */
    method Get() returns (a: array<byte>)
      requires Valid()
      modifies this`free, this`Repr
      ensures Valid() && view == old(view) && fresh(Repr - old(Repr))
      ensures a.Length == SIZE && a in Repr && a !in free && a !in holder
    {
      var reuse: bool := *;
      if reuse && |free| > 0 {
        a := free[|free| - 1];
        free := free[..|free| - 1];
      } else {
        a := new byte[SIZE];
        Repr := Repr + {a};
      }
    }

    /** sync.Pool.Put of an array that no live buffer holds and that is not free already. */
    method Put(a: array<byte>)
      requires Valid() && a.Length == SIZE
      requires a in Repr && a !in free && a !in holder
      modifies this`free
      ensures Valid() && view == old(view) && free == old(free) + [a]
    {
      free := free + [a];
    }

    /** Records a new live buffer and the array it holds. */
    ghost method Own(b: Buffer)
      requires Valid() && b !in view && b.Live() && b.v !in holder && b.v !in free
      modifies this`view, this`holder, this`Repr
      ensures Valid() && Repr == old(Repr) + {b, b.v} && view == old(view)[b := b.AsView()]
    {
      Repr := Repr + {b, b.v};
      view := view[b := b.AsView()];
      holder := holder[b.v := b];
    }

    /** Strikes a live buffer off; its array is then held by nobody. */
    ghost method Disown(b: Buffer)
      requires Valid() && b in view
      modifies this`view, this`holder
      ensures Valid() && view == old(view) - {b} && b.v in Repr && b.v !in holder && b.v !in free
    {
      view, holder := view - {b}, holder - {b.v};
    }
  }

  class Buffer {
    var v: array?<byte>
    var vlen: nat
    var start: nat
    var end: nat

    ghost predicate Live()
      reads this
    {
      v != null && SIZE <= vlen <= v.Length && start <= end <= vlen
    }

    ghost function AsView(): View
      requires Live()
      reads this, v
    {
      View(v[start..end], start, vlen)
    }

    ghost predicate Is(w: View)
      reads this, v
    {
      Live() && AsView() == w
    }

    constructor New(pool: Pool)
      requires pool.Valid()
      modifies pool.Repr
      ensures pool.Valid() && fresh(pool.Repr - old(pool.Repr))
      ensures this !in old(pool.view) && pool.view == old(pool.view)[this := View([], 0, 8192)]
    {
      var a := pool.Get();
      v, vlen, start, end := a, SIZE, 0, 0;
      new;
      pool.Own(this);
      assert v[0..0] == [];
    }

    /** Takes over an array that nobody else holds; a capacity below SIZE panics in the source. */
    constructor NewExisted(pool: Pool, s: Slice)
      requires pool.Valid() && s.len <= s.arr.Length && SIZE <= s.arr.Length
      requires s.arr !in pool.Repr
      modifies pool.Repr
      ensures pool.Valid() && fresh(pool.Repr - old(pool.Repr) - {s.arr})
      ensures this !in old(pool.view)
      ensures pool.view == old(pool.view)[this :=
                View(s.arr[..s.len], 0, if s.len < SIZE then SIZE else s.len)]
    {
      v, start, end := s.arr, 0, s.len;
      vlen := if s.len < SIZE then SIZE else s.len;
      new;
      pool.Own(this);
    }

    /**
     Gives the array back: afterwards the buffer has none and is not live, so this happens once.
     Releasing a buffer that was released before does nothing.
     */
    method Release(pool: Pool)
      requires pool.Valid() && (v != null ==> this in pool.view)
      modifies pool.Repr
      ensures pool.Valid() && pool.Repr == old(pool.Repr) && v == null
      ensures pool.view == old(pool.view) - {this}
      ensures pool.free == old(pool.free) + (if old(v) != null && old(v).Length == SIZE then [old(v)] else [])
    {
      if v == null {
        return;
      }
      var p := v;
      pool.Disown(this);
      v := null;
      Clear();
      if p.Length == SIZE {
        pool.Put(p);
      }
    }

    method Len(ghost pool: Pool) returns (n: nat)
      requires pool.Valid() && this in pool.view
      ensures n == |pool.view[this].data|
    {
      n := end - start;
    }

    method IsEmpty(ghost pool: Pool) returns (r: bool)
      requires pool.Valid() && this in pool.view
      ensures r <==> pool.view[this].data == []
    {
      r := start == end;
    }

    method IsFull(ghost pool: Pool) returns (r: bool)
      requires pool.Valid() && this in pool.view
      ensures r <==> pool.view[this].End() == pool.view[this].vlen
    {
      r := end == vlen;
    }

    method Bytes(ghost pool: Pool) returns (s: seq<byte>)
      requires pool.Valid() && this in pool.view
      ensures s == pool.view[this].data
    {
      s := v[start..end];
    }

    method Clear()
      modifies this`start, this`end
      ensures start == 0 && end == 0
    {
      start, end := 0, 0;
    }

    /** copy(b.v[b.end:], data), and the cursor behind it. */
    method Append(data: seq<byte>, ghost w: View) returns (n: nat)
      requires Is(w)
      modifies this`end, v
      ensures n == Min(|data|, w.vlen - w.End()) && Is(w.(data := w.data + data[..n]))
    {
      n := Min(|data|, vlen - end);
      forall i | 0 <= i < n {
        v[end + i] := data[i];
      }
      assert v[start..end + n] == old(v[start..end]) + data[..n];
      end := end + n;
    }

    /** copy(data, b.v[b.start:b.end]), and the cursors behind it. */
    method Consume(want: nat, ghost w: View) returns (out: seq<byte>, eof: bool)
      requires Is(w)
      modifies this`start, this`end
      ensures (eof <==> w.data == []) && out == w.data[..Min(want, |w.data|)]
      ensures Is(AfterRead(w, |out|))
    {
      if start == end {
        return [], true;
      }
      var n := Min(want, end - start);
      out, eof := v[start..start + n], false;
      assert v[start + n..end] == v[start..end][n..];
      if n == end - start {
        Clear();
      } else {
        start := start + n;
      }
    }

    /** Copies what fits behind the content; n says how much that was. */
    method Write(ghost pool: Pool, data: seq<byte>) returns (n: nat)
      requires pool.Valid() && this in pool.view
      modifies pool.Repr
      ensures pool.Valid() && pool.Repr == old(pool.Repr)
      ensures n == Min(|data|, old(pool.view)[this].vlen - old(pool.view)[this].End())
      ensures pool.view == old(pool.view)[this :=
                old(pool.view)[this].(data := old(pool.view)[this].data + data[..n])]
    {
      ghost var w := pool.view[this];
      n := Append(data, w);
      pool.view := pool.view[this := w.(data := w.data + data[..n])];
    }

    /** Lengthens the content by n bytes of whatever v holds; past the end of v the source panics. */
    method Extend(ghost pool: Pool, n: nat)
      requires pool.Valid() && this in pool.view && pool.view[this].End() + n <= pool.view[this].vlen
      modifies pool.Repr
      ensures pool.Valid() && pool.Repr == old(pool.Repr)
      ensures pool.view.Keys == old(pool.view).Keys
      ensures var w, w' := old(pool.view)[this], pool.view[this];
              |w'.data| == |w.data| + n && w'.data[..|w.data|] == w.data && w' == w.(data := w'.data)
      ensures pool.view == old(pool.view)[this := pool.view[this]]
    {
      ghost var w := pool.view[this];
      Lengthen(n, w);
      pool.view := pool.view[this := AsView()];
    }

    method Lengthen(n: nat, ghost w: View)
      requires Is(w) && w.End() + n <= w.vlen
      modifies this`end
      ensures Live() && AsView() == w.(data := AsView().data)
      ensures |AsView().data| == |w.data| + n && AsView().data[..|w.data|] == w.data
    {
      end := end + n;
    }

    /** copy(b.Bytes(), src): overwrites the front of the content with what fits of src. */
    method Overwrite(ghost pool: Pool, src: seq<byte>) returns (n: nat)
      requires pool.Valid() && this in pool.view
      modifies pool.Repr
      ensures pool.Valid() && pool.Repr == old(pool.Repr) && n == Min(|src|, |old(pool.view)[this].data|)
      ensures pool.view == old(pool.view)[this :=
                old(pool.view)[this].(data := src[..n] + old(pool.view)[this].data[n..])]
    {
      ghost var w := pool.view[this];
      n := Min(|src|, end - start);
      Splice(src[..n], w);
      pool.view := pool.view[this := w.(data := src[..n] + w.data[n..])];
    }

    method Splice(src: seq<byte>, ghost w: View)
      requires Is(w) && |src| <= |w.data|
      modifies v
      ensures Is(w.(data := src + w.data[|src|..]))
    {
      forall i | 0 <= i < |src| {
        v[start + i] := src[i];
      }
      assert v[start..end] == src + w.data[|src|..];
    }

    /** Reads at most `want` bytes; an empty buffer reports EOF. */
    method Read(ghost pool: Pool, want: nat) returns (out: seq<byte>, eof: bool)
      requires pool.Valid() && this in pool.view
      modifies pool.Repr
      ensures pool.Valid() && pool.Repr == old(pool.Repr) && (eof <==> old(pool.view)[this].data == [])
      ensures out == old(pool.view)[this].data[..Min(want, |old(pool.view)[this].data|)]
      ensures pool.view == old(pool.view)[this := AfterRead(old(pool.view)[this], |out|)]
    {
      hide AfterRead;
      ghost var w := pool.view[this];
      out, eof := Consume(want, w);
      pool.view := pool.view[this := AfterRead(w, |out|)];
    }

    /** ReadFrom with another Buffer as the reader: one Read into the free tail of v. */
    method ReadFrom(ghost pool: Pool, other: Buffer) returns (n: nat, eof: bool)
      requires pool.Valid() && this in pool.view && other in pool.view && this != other
      modifies pool.Repr
      ensures pool.Valid() && pool.Repr == old(pool.Repr) && (eof <==> old(pool.view)[other].data == [])
      ensures n == Min(old(pool.view)[this].vlen - old(pool.view)[this].End(), |old(pool.view)[other].data|)
      ensures pool.view == old(pool.view)
              [other := AfterRead(old(pool.view)[other], n)]
              [this := old(pool.view)[this].(data := old(pool.view)[this].data + old(pool.view)[other].data[..n])]
    {
      hide AfterRead;
      var room := vlen - end;
      var out;
      out, eof := other.Read(pool, room);
      n := |out|;
      var m := Write(pool, out);
      assert out[..m] == out;
    }
  }

  /** A view after a Read took n bytes: a drained buffer is cleared, an empty one is left alone. */
  function AfterRead(w: View, n: nat): View
    requires n <= |w.data|
  {
    if w.data == [] then w
    else if n == |w.data| then View([], 0, w.vlen)
    else View(w.data[n..], w.start + n, w.vlen)
  }
}
