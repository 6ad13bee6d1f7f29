/**
 HunkReaderWriter: the two ends of a gRPC tunnel that carries one hunk per message.
 Each call is proved against the stream functions of module Hunks.
 */
module HunkConn {
  import opened Bytes
  import opened Buffers
  import opened MultiBuffers
  import opened Hunks

  /**
   One direction of the gRPC stream.  Send copies the bytes out before it returns, or fails;
   Recv puts the next hunk into a new slice whose capacity the decoder chose, and fails when
   nothing more comes.
   */
  class Link {
    /** On a reliable link no Send fails. */
    const reliable: bool
    var queue: seq<Hunk>
    /** The latest Send failed. */
    var broken: bool

    ghost predicate Valid()
      reads this
    {
      (broken ==> !reliable) && forall i :: 0 <= i < |queue| ==> queue[i].Proper()
    }

    constructor (reliable: bool)
      ensures this.reliable == reliable && queue == [] && !broken
    {
      this.reliable, queue, broken := reliable, [], false;
    }

    method Send(data: seq<byte>) returns (ok: bool)
      requires Valid()
      modifies this
      ensures Valid() && (ok <==> !broken)
      ensures ok ==> |queue| == |old(queue)| + 1 && queue[..|old(queue)|] == old(queue) &&
                     queue[|old(queue)|].data == data
      ensures !ok ==> queue == old(queue)
    {
      ok := *;
      ok := ok || reliable;
      broken := !ok;
      if ok {
        var cap: nat := *;
        queue := queue + [Hunk(data, if cap < |data| then |data| else cap)];
      }
    }

    method Recv() returns (arr: array?<byte>, len: nat)
      requires Valid()
      modifies this
      ensures Valid() && broken == old(broken)
      ensures arr == null <==> old(queue) == []
      ensures arr == null ==> queue == old(queue)
      ensures arr != null ==> fresh(arr) && queue == old(queue)[1..] && len <= arr.Length &&
                              Hunk(arr[..len], arr.Length) == old(queue)[0]
    {
      if |queue| == 0 {
        return null, 0;
      }
      var h := queue[0];
      queue := queue[1..];
      arr, len := new byte[h.cap], |h.data|;
      forall i | 0 <= i < len {
        arr[i] := h.data[i];
      }
      assert arr[..len] == h.data;
    }
  }

  /** One more live buffer than before, empty and in nobody's hands. */
  ghost predicate Dropped(view: World, view': World) {
    exists b :: b in view' && b !in view && view' == view[b := View([], 0, SIZE)]
  }

  class HunkReaderWriter {
    const input: Link
    const output: Link
    var buf: array?<byte>
    var len: nat
    var index: nat
    var done: bool

    /** The cursor fields as a value. */
    ghost function Cursor(): Cursor
      reads this, buf
    {
      if buf == null || buf.Length < len || index >= len then Spent
      else Partly(Hunk(buf[..len], buf.Length), index)
    }

    /** The bytes of a hunk that is not used up yet are this reader's alone. */
    ghost predicate Valid(pool: Pool)
      reads this, buf, input, output, pool
    {
      && this !in pool.Repr && input !in pool.Repr && output !in pool.Repr && input != output
      && input.Valid() && output.Valid()
      && (buf != null ==> len <= buf.Length)
      && (buf == null ==> len == 0)
      && (Cursor().Partly? ==> buf !in pool.Repr)
    }

    ghost function Held(): set<object>
      reads this
    {
      if buf == null then {} else {buf}
    }

    constructor (input: Link, output: Link)
      ensures this.input == input && this.output == output
      ensures buf == null && len == index == 0 && !done
    {
      this.input, this.output := input, output;
      buf, len, index, done := null, 0, 0, false;
    }

    method ForceFetch(ghost pool: Pool) returns (ok: bool)
      requires Valid(pool) && pool.Valid() && Cursor() == Spent
      modifies this`buf, this`len, this`index, input
      ensures Valid(pool) && fresh(Held() - old(Held()))
      ensures ok <==> old(input.queue) != []
      ensures !ok ==> input.queue == old(input.queue) && Cursor() == Spent && buf == old(buf)
      ensures ok ==> buf != null && fresh(buf) && index == 0 && buf !in pool.Repr
      ensures ok ==> Hunk(buf[..len], buf.Length) == old(input.queue)[0] && input.queue == old(input.queue)[1..]
      ensures ok ==> Cursor() == CursorAt(old(input.queue)[0], 0)
    {
      var arr, n := input.Recv();
      if arr == null {
        return false;
      }
      buf, len, index := arr, n, 0;
      ok := true;
    }

    method Read(ghost pool: Pool, want: nat) returns (ok: bool, out: seq<byte>)
      requires Valid(pool) && pool.Valid()
      modifies this, input
      ensures Valid(pool) && done == old(done) && fresh(Held() - old(Held()))
      ensures done ==> !ok && input.queue == old(input.queue) && Cursor() == old(Cursor())
      ensures !done ==>
                var s := old(ReadUpTo(Cursor(), input.queue, want));
                && Cursor() == s.cursor && input.queue == s.queue
                && (ok <==> s.reply.Chunk?) && (ok ==> out == s.reply.bytes && |out| <= want)
    {
      out := [];
      if done {
        return false, out;
      }
      if index >= len {
        var fetched := ForceFetch(pool);
        if !fetched {
          return false, out;
        }
      }
      var n := Min(want, len - index);
      out := buf[index..index + n];
      assert out == buf[..len][index..index + n];
      index := index + n;
      ok := true;
    }

    /** The branch for a big slice: the whole of it becomes a buffer, without copying. */
    method HandOver(pool: Pool) returns (mb: MultiBuffer)
      requires Valid(pool) && pool.Valid() && buf != null && buf.Length >= SIZE && buf !in pool.Repr
      modifies this`index, pool.Repr
      ensures Valid(pool) && pool.Valid() && Cursor() == Spent
      ensures fresh(pool.Repr - old(pool.Repr) - Held())
      ensures |mb| == 1 && mb[0] !in old(pool.view) && Holds(pool.view, mb)
      ensures Content(pool.view, mb) == old(buf[..len]) && Others(pool.view, mb) == old(pool.view)
    {
      hide Pool.Valid;
      ghost var view := pool.view;
      index := len;
      var b := new Buffer.NewExisted(pool, Slice(buf, len));
      AddedOne(view, b, pool.view[b]);
      mb := [b];
    }

    /** The branch for a small slice: Read into a new buffer. */
    method CopyOut(pool: Pool) returns (ok: bool, mb: MultiBuffer)
      requires Valid(pool) && pool.Valid() && !done
      modifies this, input, pool.Repr
      ensures Valid(pool) && pool.Valid() && done == old(done)
      ensures fresh(pool.Repr - old(pool.Repr)) && fresh(Held() - old(Held()))
      ensures var s := old(ReadUpTo(Cursor(), input.queue, SIZE));
              && Cursor() == s.cursor && input.queue == s.queue && (ok <==> s.reply.Chunk?)
              && (ok ==> Holds(pool.view, mb) && Content(pool.view, mb) == s.reply.bytes)
      ensures ok ==> Others(pool.view, mb) == old(pool.view) && |mb| == 1 && mb[0] !in old(pool.view)
      ensures !ok ==> mb == [] && Dropped(old(pool.view), pool.view)
    {
      hide Pool.Valid;
      hide ReadUpTo;
      hide Content;
      ghost var view := pool.view;
      mb := [];
      var b := new Buffer.New(pool);
      assert Dropped(view, pool.view);
      hide Dropped;
      var out;
      ok, out := Read(pool, SIZE);
      if ok {
        var n := b.Write(pool, out);
        assert pool.view == view[b := View(out, 0, SIZE)] by {
          assert [] + out[..n] == out;
        }
        AddedOne(view, b, pool.view[b]);
        mb := [b];
      }
    }

    /**
     Hands a big slice over, or copies a small one.  A failing call leaves the pool as it is, unless
     it fetched a hunk first: then the copying branch has met the end of the stream behind an empty
     hunk, and its new buffer is dropped without being released.
     */
    method ReadMultiBuffer(pool: Pool) returns (ok: bool, mb: MultiBuffer)
      requires Valid(pool) && pool.Valid()
      modifies this, input, pool.Repr
      ensures Valid(pool) && pool.Valid() && done == old(done)
      ensures fresh(pool.Repr + Held() - old(pool.Repr + Held()))
      ensures done ==> !ok && input.queue == old(input.queue) && Cursor() == old(Cursor())
      ensures !done ==>
                var s := old(ReadMulti(Cursor(), input.queue));
                && Cursor() == s.cursor && input.queue == s.queue && (ok <==> s.reply.Chunk?)
                && (ok ==> Holds(pool.view, mb) && Content(pool.view, mb) == s.reply.bytes)
      ensures ok ==> Others(pool.view, mb) == old(pool.view) && |mb| == 1 && mb[0] !in old(pool.view)
      ensures !ok ==> mb == []
      ensures !ok ==> if done || old(input.queue) == [] then pool.view == old(pool.view) else Dropped(old(pool.view), pool.view)
    {
      hide Pool.Valid;
      mb := [];
      if done {
        return false, mb;
      }
      if index >= len {
        var fetched := ForceFetch(pool);
        if !fetched {
          return false, mb;
        }
      }
      if buf.Length >= SIZE {
        ok := true;
        mb := HandOver(pool);
      } else {
        ok, mb := CopyOut(pool);
      }
    }

    method Write(ghost pool: Pool, data: seq<byte>) returns (ok: bool)
      requires Valid(pool)
      modifies output
      ensures Valid(pool)
      ensures ok ==> !done && |output.queue| == |old(output.queue)| + 1 &&
                     output.queue[..|old(output.queue)|] == old(output.queue) &&
                     output.queue[|old(output.queue)|].data == data
      ensures !ok ==> output.queue == old(output.queue) && (done || output.broken)
    {
      if done {
        return false;
      }
      ok := output.Send(data);
    }
  }

  /** What the calls of Drain still have to do. */
  ghost predicate Remains(c: Cursor, q: seq<Hunk>, got: seq<byte>, all: seq<byte>, drops: bool) {
    Proper(c, q) && got + Deliver(c, q) == all && (Drops(c, q) <==> drops)
  }

  lemma RemainsNext(c: Cursor, q: seq<Hunk>, got: seq<byte>, all: seq<byte>, drops: bool)
    requires Remains(c, q, got, all, drops)
    ensures var s := ReadMulti(c, q);
            if s.reply.End? then got == all && s.queue == [] && (drops <==> q != [])
            else Remains(s.cursor, s.queue, got + s.reply.bytes, all, drops) && Work(s.cursor, s.queue) < Work(c, q)
  {
    ReadMultiWorks(c, q);
    var s := ReadMulti(c, q);
    if s.reply.Chunk? {
      assert got + (s.reply.bytes + Deliver(s.cursor, s.queue)) == got + s.reply.bytes + Deliver(s.cursor, s.queue);
    }
  }

  /** Reading to the end and releasing what comes. */
  method Drain(pool: Pool, h: HunkReaderWriter) returns (got: seq<byte>)
    requires h.Valid(pool) && pool.Valid() && !h.done && h.Cursor() == Spent
    modifies h, h.input, h.Held(), pool.Repr
    ensures h.Valid(pool) && pool.Valid() && h.input.queue == []
    ensures got == Deliver(Spent, old(h.input.queue))
    ensures if TrailingVoids(old(h.input.queue)) % 2 == 0 then pool.view == old(pool.view) else Dropped(old(pool.view), pool.view)
  {
    got := [];
    ghost var view, all, drops := pool.view, Deliver(Spent, h.input.queue), Drops(Spent, h.input.queue);
    DropsIff(h.input.queue);
    assert Remains(h.Cursor(), h.input.queue, got, all, drops);
    hide Pool.Valid;
    hide HunkReaderWriter.Valid;
    hide Remains;
    hide Deliver;
    hide Drops;
    hide ReadMulti;
    hide Dropped;
    while true
      invariant h.Valid(pool) && pool.Valid() && !h.done && pool.view == view
      invariant fresh(pool.Repr + h.Held() - old(pool.Repr + h.Held()))
      invariant Remains(h.Cursor(), h.input.queue, got, all, drops)
      decreases Work(h.Cursor(), h.input.queue)
    {
      RemainsNext(h.Cursor(), h.input.queue, got, all, drops);
      var ok, bytes := DrainOne(pool, h);
      if !ok {
        return;
      }
      got := got + bytes;
    }
  }

  /** One call, and the release of its buffers. */
  method DrainOne(pool: Pool, h: HunkReaderWriter) returns (ok: bool, bytes: seq<byte>)
    requires h.Valid(pool) && pool.Valid() && !h.done
    modifies h, h.input, h.Held(), pool.Repr
    ensures h.Valid(pool) && pool.Valid() && !h.done && fresh(pool.Repr + h.Held() - old(pool.Repr + h.Held()))
    ensures var s := old(ReadMulti(h.Cursor(), h.input.queue));
            && h.Cursor() == s.cursor && h.input.queue == s.queue && (ok <==> s.reply.Chunk?)
            && (ok ==> bytes == s.reply.bytes)
    ensures if ok || old(h.input.queue) == [] then pool.view == old(pool.view) else Dropped(old(pool.view), pool.view)
  {
    hide Pool.Valid;
    hide ReadMulti;
    var mb;
    bytes := [];
    ok, mb := h.ReadMultiBuffer(pool);
    if ok {
      bytes := ToString(pool, mb);
      ReleaseMulti(pool, mb);
    }
  }
}
