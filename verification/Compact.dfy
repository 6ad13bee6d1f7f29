/**
 Compact merges neighbouring buffers while two of them fit into one regular buffer.

 It is lossless only on some lists: merging copies into the tail of the earlier buffer, so a
 partly read buffer may be short of room, and merging an empty buffer panics.  `Fits` is the exact
 condition.
 */
module Compact {
  import opened Bytes
  import opened Buffers
  import opened MultiBuffers

  datatype Outcome = Panic | Merged(views: seq<View>)

  /** ReadFrom: what fits of curr is copied behind last. */
  function Absorb(last: View, curr: View): View
    requires last.End() <= last.vlen
  {
    last.(data := last.data + curr.data[..Min(last.vlen - last.End(), |curr.data|)])
  }

  predicate Proper(w: View) {
    SIZE <= w.vlen && w.End() <= w.vlen
  }

  predicate AllProper(vs: seq<View>) {
    forall i :: 0 <= i < |vs| ==> Proper(vs[i])
  }

  function Prepend(pre: seq<View>, o: Outcome): Outcome {
    match o
    case Panic => Panic
    case Merged(vs) => Merged(pre + vs)
  }

  function CompactFrom(last: View, rest: seq<View>): Outcome
    requires Proper(last) && AllProper(rest)
    decreases |rest|
  {
    if rest == [] then Merged([last])
    else if |last.data| + |rest[0].data| > SIZE then Prepend([last], CompactFrom(rest[0], rest[1..]))
    else if rest[0].data == [] then Panic
    else CompactFrom(Absorb(last, rest[0]), rest[1..])
  }

  function CompactViews(vs: seq<View>): Outcome
    requires AllProper(vs)
  {
    if vs == [] then Merged([]) else CompactFrom(vs[0], vs[1..])
  }

  /** No merge meets an empty buffer or runs out of room. */
  predicate Fits(last: View, rest: seq<View>)
    requires Proper(last) && AllProper(rest)
    decreases |rest|
  {
    rest == [] ||
    if |last.data| + |rest[0].data| > SIZE then Fits(rest[0], rest[1..])
    else
      && rest[0].data != []
      && last.End() + |rest[0].data| <= last.vlen
      && Fits(Absorb(last, rest[0]), rest[1..])
  }

  ghost predicate Lossless(o: Outcome, content: seq<byte>) {
    o.Merged? && Concat(o.views) == content
  }

  lemma {:induction false} NeverLonger(last: View, rest: seq<View>)
    requires Proper(last) && AllProper(rest)
    ensures CompactFrom(last, rest).Merged? ==>
              |Concat(CompactFrom(last, rest).views)| <= |last.data| + |Concat(rest)|
    decreases |rest|
  {
    if rest == [] {
      GatherOne(ViewBytes, last);
    } else if |last.data| + |rest[0].data| > SIZE {
      NeverLonger(rest[0], rest[1..]);
      var o := CompactFrom(rest[0], rest[1..]);
      if o.Merged? {
        assert ([last] + o.views)[1..] == o.views;
      }
    } else if rest[0].data != [] {
      NeverLonger(Absorb(last, rest[0]), rest[1..]);
    }
  }

  /** Compact keeps the bytes exactly on the lists that Fits accepts. */
  lemma {:induction false} LosslessIffFits(last: View, rest: seq<View>)
    requires Proper(last) && AllProper(rest)
    ensures Lossless(CompactFrom(last, rest), last.data + Concat(rest)) <==> Fits(last, rest)
    decreases |rest|
  {
    if rest == [] {
      GatherOne(ViewBytes, last);
    } else if |last.data| + |rest[0].data| > SIZE {
      LosslessIffFits(rest[0], rest[1..]);
      var o := CompactFrom(rest[0], rest[1..]);
      if o.Merged? {
        assert ([last] + o.views)[1..] == o.views;
        assert Concat([last] + o.views) == last.data + Concat(o.views);
        if last.data + Concat(o.views) == last.data + Concat(rest) {
          assert (last.data + Concat(o.views))[|last.data|..] == Concat(o.views);
          assert (last.data + Concat(rest))[|last.data|..] == Concat(rest);
        }
      }
    } else if rest[0].data != [] {
      var merged := Absorb(last, rest[0]);
      LosslessIffFits(merged, rest[1..]);
      if last.End() + |rest[0].data| <= last.vlen {
        assert rest[0].data[..|rest[0].data|] == rest[0].data;
        assert merged.data + Concat(rest[1..]) == last.data + Concat(rest);
      } else {
        NeverLonger(merged, rest[1..]);
      }
    }
  }

  /** The lists that the rest of the package produces: unread buffers, none empty behind the first. */
  lemma {:induction false} UnreadFits(last: View, rest: seq<View>)
    requires Proper(last) && AllProper(rest) && last.start == 0
    requires forall i :: 0 <= i < |rest| ==> rest[i].start == 0 && rest[i].data != []
    ensures Fits(last, rest)
    decreases |rest|
  {
    if rest == [] {
    } else {
      if |last.data| + |rest[0].data| > SIZE {
        UnreadFits(rest[0], rest[1..]);
      } else {
        UnreadFits(Absorb(last, rest[0]), rest[1..]);
      }
    }
  }

  /** A partly read, full buffer swallows its neighbour. */
  lemma PartlyReadLoses(w: View, c: View)
    requires Proper(w) && Proper(c) && w.start > 0 && w.End() == w.vlen
    requires c.data != [] && |w.data| + |c.data| <= SIZE
    ensures CompactViews([w, c]) == Merged([w])
  {
    assert [w, c][1..] == [c];
    assert [c][1..] == [];
    assert c.data[..0] == [];
    assert Absorb(w, c) == w by {
      assert Absorb(w, c).data == w.data;
    }
    assert CompactFrom(w, [c]) == CompactFrom(w, []);
  }

  /** A buffer that is empty and would fit panics. */
  lemma EmptyPanics(w: View, c: View)
    requires Proper(w) && Proper(c) && c.data == [] && |w.data| <= SIZE
    ensures CompactViews([w, c]) == Panic
  {
    assert [w, c][1..] == [c];
    assert CompactFrom(w, [c]) == Panic;
  }

  ghost predicate Dense(vs: seq<View>) {
    forall i :: 0 <= i < |vs| - 1 ==> |vs[i].data| + |vs[i + 1].data| > SIZE
  }

  /** Neighbours in the result do not fit into one buffer, and no result exceeds a regular buffer. */
  lemma {:induction false} ResultDense(last: View, rest: seq<View>)
    requires Proper(last) && AllProper(rest) && CompactFrom(last, rest).Merged?
    ensures var vs := CompactFrom(last, rest).views;
            && Dense(vs) && |vs| > 0 && |vs[0].data| >= |last.data|
            && (|last.data| <= SIZE && (forall i :: 0 <= i < |rest| ==> |rest[i].data| <= SIZE) ==>
                  forall i :: 0 <= i < |vs| ==> |vs[i].data| <= SIZE)
    decreases |rest|
  {
    if rest == [] {
    } else {
      if |last.data| + |rest[0].data| > SIZE {
        ResultDense(rest[0], rest[1..]);
        var tail := CompactFrom(rest[0], rest[1..]).views;
        var vs := [last] + tail;
        forall i | 0 <= i < |vs| - 1
          ensures |vs[i].data| + |vs[i + 1].data| > SIZE
        {
          if i > 0 {
            assert vs[i] == tail[i - 1] && vs[i + 1] == tail[i];
          }
        }
      } else {
        ResultDense(Absorb(last, rest[0]), rest[1..]);
      }
    }
  }

  lemma {:induction false} DenseCount(vs: seq<View>)
    requires Dense(vs)
    ensures (|vs| / 2) * (SIZE + 1) <= |Concat(vs)|
  {
    if |vs| < 2 {
    } else {
      var tail := vs[2..];
      assert Dense(tail) by {
        assert forall i :: 0 <= i < |tail| ==> tail[i] == vs[i + 2];
      }
      DenseCount(tail);
      assert vs[1..][1..] == tail;
      assert Concat(vs[1..]) == vs[1].data + Concat(tail);
      assert Concat(vs) == vs[0].data + Concat(vs[1..]);
      assert |vs[0].data| + |vs[1].data| >= SIZE + 1;
      assert |vs| / 2 == |tail| / 2 + 1;
    }
  }

  /** Half the buffers of a dense list already hold more than SIZE bytes each. */
  lemma CountBound(vs: seq<View>)
    requires Dense(vs)
    ensures |vs| <= 2 * (|Concat(vs)| / SIZE) + 1
  {
    DenseCount(vs);
    var half, total := |vs| / 2, |Concat(vs)|;
    assert half * SIZE <= total;
    assert half <= total / SIZE;
  }

  /** Compact as a whole: when it keeps the bytes, and how few buffers it leaves. */
  lemma CompactCorrect(vs: seq<View>)
    requires AllProper(vs)
    ensures Lossless(CompactViews(vs), Concat(vs)) <==> vs == [] || Fits(vs[0], vs[1..])
    ensures CompactViews(vs).Merged? ==>
              var us := CompactViews(vs).views;
              && Dense(us) && |us| <= 2 * (|Concat(us)| / SIZE) + 1
              && ((forall i :: 0 <= i < |vs| ==> |vs[i].data| <= SIZE) ==>
                    forall i :: 0 <= i < |us| ==> |us[i].data| <= SIZE)
  {
    if vs != [] {
      LosslessIffFits(vs[0], vs[1..]);
      if CompactViews(vs).Merged? {
        ResultDense(vs[0], vs[1..]);
        CountBound(CompactViews(vs).views);
      }
    }
  }

  // --- the method ---

  lemma AlwaysProper(pool: Pool, mb: MultiBuffer)
    requires pool.Valid() && Holds(pool.view, mb)
    ensures AllProper(Views(pool.view, mb))
  {
  }

  /** last takes over what it could of curr, and curr is gone. */
  lemma MergedInto(view: World, pre: MultiBuffer, last: Buffer, curr: Buffer, tail: MultiBuffer, w: View)
    requires Holds(view, pre + [last] + [curr] + tail)
    ensures var vs, k := Views(view, pre + [last] + [curr] + tail), |pre|;
            var view' := view[last := w] - {curr};
            && Holds(view', pre + [last] + tail)
            && Views(view', pre + [last] + tail) == vs[..k] + [w] + vs[k + 2..]
            && Others(view', pre + [last] + tail) == Others(view, pre + [last] + [curr] + tail)
  {
    var all := pre + [last] + [curr] + tail;
    var less := pre + [last] + tail;
    var k := |pre|;
    assert all[k] == last && all[k + 1] == curr && less[k] == last;
    assert forall i :: 0 <= i < |less| ==> less[i] == (if i <= k then all[i] else all[i + 1]);
    var view' := view[last := w] - {curr};
    forall i | 0 <= i < |less|
      ensures less[i] in view' && less[i] != curr
      ensures view'[less[i]] == if i == k then w else view[less[i]]
    {
      var m := if i <= k then i else i + 1;
      assert less[i] == all[m];
    }
    forall i, j | 0 <= i < j < |less|
      ensures less[i] != less[j]
    {
      assert less[i] == all[if i <= k then i else i + 1];
      assert less[j] == all[if j <= k then j else j + 1];
    }
    assert forall b :: b in all <==> b in less || b == curr;
  }

  /** What is left to do once pre is final: the list pre + [last] + tail, seen as views. */
  ghost predicate Pending(o: Outcome, vs: seq<View>, k: nat) {
    k < |vs| && AllProper(vs) && o == Prepend(vs[..k], CompactFrom(vs[k], vs[k + 1..]))
  }

  lemma Advance(o: Outcome, vs: seq<View>, k: nat)
    requires Pending(o, vs, k) && k + 1 < |vs|
    ensures |vs[k].data| + |vs[k + 1].data| > SIZE ==> Pending(o, vs, k + 1)
    ensures |vs[k].data| + |vs[k + 1].data| <= SIZE && vs[k + 1].data == [] ==> o == Panic
    ensures |vs[k].data| + |vs[k + 1].data| <= SIZE && vs[k + 1].data != [] ==>
              Pending(o, vs[..k] + [Absorb(vs[k], vs[k + 1])] + vs[k + 2..], k)
  {
    assert vs[k + 1..][1..] == vs[k + 2..];
    assert vs[..k] + [vs[k]] == vs[..k + 1];
    var next := CompactFrom(vs[k + 1], vs[k + 2..]);
    if next.Merged? {
      assert vs[..k] + ([vs[k]] + next.views) == vs[..k + 1] + next.views;
    }
    var us := vs[..k] + [Absorb(vs[k], vs[k + 1])] + vs[k + 2..];
    assert us[..k] == vs[..k] && us[k + 1..] == vs[k + 2..];
  }

  /** The merging branch of the loop: last.ReadFrom(curr), then curr.Release(). */
  method AbsorbNext(pool: Pool, last: Buffer, curr: Buffer) returns (ok: bool)
    requires pool.Valid() && last in pool.view && curr in pool.view && last != curr
    requires Proper(pool.view[last])
    modifies pool.Repr
    ensures pool.Valid() && pool.Repr == old(pool.Repr)
    ensures ok <==> old(pool.view)[curr].data != []
    ensures ok ==>
              pool.view == old(pool.view)[last := Absorb(old(pool.view)[last], old(pool.view)[curr])] - {curr}
  {
    hide Pool.Valid;
    ghost var view := pool.view;
    var n, eof := last.ReadFrom(pool, curr);
    ok := !eof;
    if ok {
      curr.Release(pool);
      assert pool.view == view[last := Absorb(view[last], view[curr])] - {curr};
    }
  }

  /** Between two turns of the loop: mb2 is final, last is open, rest is still to come. */
  ghost predicate Busy(view: World, mb2: MultiBuffer, last: Buffer, rest: MultiBuffer, o: Outcome, others: World) {
    && Holds(view, mb2 + [last] + rest)
    && Others(view, mb2 + [last] + rest) == others
    && Pending(o, Views(view, mb2 + [last] + rest), |mb2|)
  }

  lemma Turn(view: World, mb2: MultiBuffer, last: Buffer, curr: Buffer, rest: MultiBuffer, o: Outcome, others: World)
    requires Busy(view, mb2, last, [curr] + rest, o, others)
    ensures last in view && curr in view && last != curr && Proper(view[last])
    ensures |view[last].data| + |view[curr].data| > SIZE ==> Busy(view, mb2 + [last], curr, rest, o, others)
    ensures |view[last].data| + |view[curr].data| <= SIZE ==>
              if view[curr].data == [] then o == Panic
              else Busy(view[last := Absorb(view[last], view[curr])] - {curr}, mb2, last, rest, o, others)
  {
    var all := mb2 + [last] + ([curr] + rest);
    var vs, k := Views(view, all), |mb2|;
    assert all == mb2 + [last] + [curr] + rest;
    assert all[k] == last && all[k + 1] == curr;
    Advance(o, vs, k);
    MergedInto(view, mb2, last, curr, rest, Absorb(vs[k], vs[k + 1]));
  }

  lemma BusyAtFirst(view: World, mb: MultiBuffer)
    requires Holds(view, mb) && mb != [] && AllProper(Views(view, mb))
    ensures Busy(view, [], mb[0], mb[1..], CompactViews(Views(view, mb)), Others(view, mb))
  {
    assert [] + [mb[0]] + mb[1..] == mb;
  }

  lemma BusyAtLast(view: World, mb2: MultiBuffer, last: Buffer, o: Outcome, others: World)
    requires Busy(view, mb2, last, [], o, others)
    ensures var r := mb2 + [last];
            Holds(view, r) && o == Merged(Views(view, r)) && Others(view, r) == others
  {
    var r := mb2 + [last];
    assert mb2 + [last] + [] == r;
    assert Views(view, r) == Views(view, r)[..|mb2|] + [Views(view, r)[|mb2|]];
  }

  /** One turn of the loop: curr is appended, or merged into last; merging an empty buffer panics. */
  method CompactTurn(pool: Pool, mb2: MultiBuffer, last: Buffer, curr: Buffer, ghost rest: MultiBuffer, ghost o: Outcome, ghost others: World)
    returns (ok: bool, mb2': MultiBuffer, last': Buffer)
    requires pool.Valid() && Busy(pool.view, mb2, last, [curr] + rest, o, others)
    modifies pool.Repr
    ensures pool.Valid() && pool.Repr == old(pool.Repr)
    ensures if ok then Busy(pool.view, mb2', last', rest, o, others) else o == Panic
  {
    hide Pool.Valid;
    hide Busy;
    Turn(pool.view, mb2, last, curr, rest, o, others);
    var m := last.Len(pool);
    var n := curr.Len(pool);
    ok, mb2', last' := true, mb2, last;
    if m + n > SIZE {
      mb2', last' := mb2 + [last], curr;
    } else {
      ok := AbsorbNext(pool, last, curr);
    }
  }

  /** A merge that reads from an empty buffer panics; ok is false then. */
  method Compact(pool: Pool, mb: MultiBuffer) returns (ok: bool, r: MultiBuffer)
    requires pool.Valid() && Holds(pool.view, mb)
    modifies pool.Repr
    ensures pool.Valid() && pool.Repr == old(pool.Repr)
    ensures AllProper(old(Views(pool.view, mb)))
    ensures ok <==> CompactViews(old(Views(pool.view, mb))).Merged?
    ensures ok ==> Holds(pool.view, r) && Views(pool.view, r) == CompactViews(old(Views(pool.view, mb))).views
    ensures ok ==> Others(pool.view, r) == old(Others(pool.view, mb))
  {
    AlwaysProper(pool, mb);
    if |mb| == 0 {
      return true, mb;
    }
    hide *;
    ghost var o, others := CompactViews(Views(pool.view, mb)), Others(pool.view, mb);
    BusyAtFirst(pool.view, mb);
    r := [];
    var last, i := mb[0], 1;
    while i < |mb|
      invariant 1 <= i <= |mb| && pool.Valid() && pool.Repr == old(pool.Repr)
      invariant Busy(pool.view, r, last, mb[i..], o, others)
    {
      assert mb[i..] == [mb[i]] + mb[i + 1..];
      ok, r, last := CompactTurn(pool, r, last, mb[i], mb[i + 1..], o, others);
      if !ok {
        return;
      }
      i := i + 1;
    }
    assert mb[i..] == [];
    BusyAtLast(pool.view, r, last, o, others);
    ok, r := true, r + [last];
  }
}
