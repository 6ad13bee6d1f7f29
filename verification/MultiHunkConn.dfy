/**
 MultiHunkReaderWriter: the tunnel mode in which one message carries a list of hunks.
 */
module MultiHunkConn {
  import opened Bytes
  import opened Buffers
  import opened MultiBuffers
  import opened Hunks

  function AllData(q: seq<seq<Hunk>>): seq<byte> {
    Gather(Data, q)
  }

  /** How many messages carry no byte. */
  function Empties(q: seq<seq<Hunk>>): nat {
    if q == [] then 0 else (if Data(q[0]) == [] then 1 else 0) + Empties(q[1..])
  }

  lemma {:induction false} EmptiesSnoc(q: seq<seq<Hunk>>, m: seq<Hunk>)
    ensures Empties(q + [m]) == Empties(q) + if Data(m) == [] then 1 else 0
  {
    if q == [] {
      assert q + [m] == [m];
    } else {
      assert (q + [m])[1..] == q[1..] + [m];
      EmptiesSnoc(q[1..], m);
    }
  }

  lemma DataSnoc(m: seq<Hunk>, i: nat)
    requires i < |m|
    ensures Data(m[..i + 1]) == Data(m[..i]) + m[i].data
  {
    assert m[..i + 1] == m[..i] + [m[i]];
    GatherSnoc(HunkBytes, m[..i], m[i]);
  }

  /** A received slice and the hunk it carries. */
  ghost predicate Carries(s: Slice, h: Hunk)
    reads s.arr
  {
    s.len <= s.arr.Length && Hunk(s.arr[..s.len], s.arr.Length) == h
  }

  class MultiLink {
    /** On a reliable link no Send fails. */
    const reliable: bool
    var queue: seq<seq<Hunk>>
    /** The latest Send failed. */
    var broken: bool

    ghost predicate Valid()
      reads this
    {
      (broken ==> !reliable) && forall i, j :: 0 <= i < |queue| && 0 <= j < |queue[i]| ==> queue[i][j].Proper()
    }

    constructor (reliable: bool)
      ensures this.reliable == reliable && queue == [] && !broken
    {
      this.reliable, queue, broken := reliable, [], false;
    }

    method Send(datas: seq<seq<byte>>) returns (ok: bool)
      requires Valid()
      modifies this
      ensures Valid() && (ok <==> !broken)
      ensures !ok ==> queue == old(queue)
      ensures ok ==> |queue| == |old(queue)| + 1 && queue[..|old(queue)|] == old(queue) &&
                     Data(queue[|old(queue)|]) == Flatten(datas)
    {
      ok := *;
      ok := ok || reliable;
      broken := !ok;
      if ok {
        var m: seq<Hunk> := [];
        for i := 0 to |datas|
          invariant queue == old(queue) && !broken
          invariant Data(m) + Flatten(datas[i..]) == Flatten(datas)
          invariant forall j :: 0 <= j < |m| ==> m[j].Proper()
        {
          var cap: nat := *;
          var h := Hunk(datas[i], if cap < |datas[i]| then |datas[i]| else cap);
          GatherSnoc(HunkBytes, m, h);
          assert datas[i..][1..] == datas[i + 1..];
          m := m + [h];
        }
        queue := queue + [m];
      }
    }

    /** The next message; its hunks are still to be put into slices. */
    method Recv() returns (ok: bool, m: seq<Hunk>)
      requires Valid()
      modifies this
      ensures Valid()
      ensures ok <==> old(queue) != []
      ensures !ok ==> queue == old(queue)
      ensures ok ==> queue == old(queue)[1..] && m == old(queue)[0]
      ensures ok ==> forall i :: 0 <= i < |m| ==> m[i].Proper()
    {
      if |queue| == 0 {
        return false, [];
      }
      ok, m, queue := true, queue[0], queue[1..];
    }
  }

  /** The decoder gives every hunk an array of its own. */
  method Decode(h: Hunk) returns (s: Slice)
    requires h.Proper()
    ensures fresh(s.arr) && Carries(s, h)
  {
    var arr := new byte[h.cap];
    forall i | 0 <= i < |h.data| {
      arr[i] := h.data[i];
    }
    s := Slice(arr, |h.data|);
    assert arr[..|h.data|] == h.data;
  }

  class MultiHunkReaderWriter {
    const input: MultiLink
    const output: MultiLink
    var done: bool

    ghost predicate Valid(pool: Pool)
      reads this, input, output, pool
    {
      && this !in pool.Repr && input !in pool.Repr && output !in pool.Repr && input != output
      && input.Valid() && output.Valid()
    }

    constructor (input: MultiLink, output: MultiLink)
      ensures this.input == input && this.output == output && !done
    {
      this.input, this.output, done := input, output, false;
    }

    /** One turn of the loop: an empty slice is skipped, a big one handed over, a small one copied. */
    method Adopt(pool: Pool, mb: MultiBuffer, h: Hunk) returns (r: MultiBuffer)
      requires pool.Valid() && Holds(pool.view, mb) && h.Proper()
      modifies pool.Repr
      ensures pool.Valid() && fresh(pool.Repr - old(pool.Repr))
      ensures Holds(pool.view, r) && Content(pool.view, r) == old(Content(pool.view, mb)) + h.data
      ensures Others(pool.view, r) == old(Others(pool.view, mb))
    {
      hide Pool.Valid;
      ghost var view := pool.view;
      var s := Decode(h);
      if s.len == 0 {
        return mb;
      }
      var b;
      if s.arr.Length >= SIZE {
        b := new Buffer.NewExisted(pool, s);
      } else {
        b := new Buffer.New(pool);
        b.Extend(pool, s.len);
        var n := b.Overwrite(pool, s.arr[..s.len]);
      }
      assert pool.view[b].data == h.data;
      assert pool.view == view[b := pool.view[b]];
      AddedLast(view, mb, b, pool.view[b]);
      r := mb + [b];
    }

    /** The loop: one buffer for every non-empty slice. */
    method AdoptAll(pool: Pool, m: seq<Hunk>) returns (mb: MultiBuffer)
      requires pool.Valid() && forall i :: 0 <= i < |m| ==> m[i].Proper()
      modifies pool.Repr
      ensures pool.Valid() && fresh(pool.Repr - old(pool.Repr))
      ensures Holds(pool.view, mb) && Content(pool.view, mb) == Data(m)
      ensures Others(pool.view, mb) == old(pool.view)
    {
      mb := [];
      assert Holds(pool.view, mb) && Others(pool.view, mb) == pool.view;
      hide Pool.Valid;
      hide Others;
      assert Content(pool.view, mb) == Data(m[..0]);
      for i := 0 to |m|
        invariant pool.Valid() && fresh(pool.Repr - old(pool.Repr))
        invariant Holds(pool.view, mb) && Others(pool.view, mb) == old(pool.view)
        invariant Content(pool.view, mb) == Data(m[..i])
      {
        DataSnoc(m, i);
        mb := Adopt(pool, mb, m[i]);
      }
      assert m[..|m|] == m;
    }

    method ReadMultiBuffer(pool: Pool) returns (ok: bool, mb: MultiBuffer)
      requires Valid(pool) && pool.Valid()
      modifies input, pool.Repr
      ensures Valid(pool) && pool.Valid() && fresh(pool.Repr - old(pool.Repr))
      ensures ok <==> !done && old(input.queue) != []
      ensures !ok ==> mb == [] && input.queue == old(input.queue) && pool.view == old(pool.view)
      ensures ok ==> input.queue == old(input.queue)[1..]
      ensures ok ==> Holds(pool.view, mb) && Content(pool.view, mb) == Data(old(input.queue)[0])
      ensures ok ==> Others(pool.view, mb) == old(pool.view)
    {
      hide Pool.Valid;
      mb := [];
      if done {
        return false, mb;
      }
      var m;
      ok, m := input.Recv();
      if ok {
        mb := AdoptAll(pool, m);
      }
    }

    /** Releases the buffers in every case; sends the non-empty ones as one message. */
    method WriteMultiBuffer(pool: Pool, mb: MultiBuffer) returns (ok: bool)
      requires pool.Valid() && Valid(pool) && Holds(pool.view, mb)
      modifies output, pool.Repr
      ensures pool.Valid() && Valid(pool) && pool.Repr == old(pool.Repr)
      ensures pool.view == old(Others(pool.view, mb))
      ensures ok ==> !done && |output.queue| == |old(output.queue)| + 1 &&
                     output.queue[..|old(output.queue)|] == old(output.queue) &&
                     Data(output.queue[|old(output.queue)|]) == old(Content(pool.view, mb))
      ensures !ok ==> output.queue == old(output.queue) && (done || output.broken)
    {
      hide Pool.Valid;
      ok := false;
      if !done {
        var hunks := Collect(pool, mb);
        ok := output.Send(hunks);
      }
      ReleaseMulti(pool, mb);
    }
  }

  /** The byte slices of the non-empty buffers. */
  method Collect(ghost pool: Pool, mb: MultiBuffer) returns (hunks: seq<seq<byte>>)
    requires pool.Valid() && Holds(pool.view, mb)
    ensures Flatten(hunks) == Content(pool.view, mb)
    ensures forall i :: 0 <= i < |hunks| ==> hunks[i] != []
  {
    hide Pool.Valid;
    assert Flatten([]) == [] && Content(pool.view, []) == [];
    hide Gather;
    hunks := [];
    assert mb[0..] == mb;
    for i := 0 to |mb|
      invariant Holds(pool.view, mb[i..]) && Content(pool.view, mb) == Flatten(hunks) + Content(pool.view, mb[i..])
      invariant forall j :: 0 <= j < |hunks| ==> hunks[j] != []
    {
      ChangedFirst(pool.view, mb[i..], pool.view[mb[i]]);
      assert mb[i..][1..] == mb[i + 1..];
      var n := mb[i].Len(pool);
      if n > 0 {
        var one := mb[i].Bytes(pool);
        GatherSnoc(Whole, hunks, one);
        hunks := hunks + [one];
      }
    }
    assert mb[|mb|..] == [];
  }
}
