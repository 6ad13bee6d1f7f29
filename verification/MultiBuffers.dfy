/**
 MultiBuffer, a list of buffers, and the operations that merge, split, write out and release one.
 Every operation is proved against the byte string the list stands for (`Content`), and says
 through `Others` that the buffers outside the list are untouched.
 */
module MultiBuffers {
  import opened Bytes
  import opened Buffers

  type MultiBuffer = seq<Buffer>

  type World = map<Buffer, View>

  function ViewBytes(w: View): seq<byte> {
    w.data
  }

  function Concat(vs: seq<View>): seq<byte> {
    Gather(ViewBytes, vs)
  }

  /** The buffers of mb are live, and none occurs twice. */
  ghost predicate Holds(view: World, mb: MultiBuffer) {
    && (forall i :: 0 <= i < |mb| ==> mb[i] in view)
    && (forall i, j :: 0 <= i < j < |mb| ==> mb[i] != mb[j])
  }

  ghost function Views(view: World, mb: MultiBuffer): (vs: seq<View>)
    requires Holds(view, mb)
    ensures |vs| == |mb| && forall i :: 0 <= i < |mb| ==> vs[i] == view[mb[i]]
  {
    seq(|mb|, i requires 0 <= i < |mb| => view[mb[i]])
  }

  ghost function Content(view: World, mb: MultiBuffer): seq<byte>
    requires Holds(view, mb)
  {
    Concat(Views(view, mb))
  }

  /** The live buffers that are not part of mb. */
  ghost function Others(view: World, mb: MultiBuffer): World {
    map b | b in view && b !in mb :: view[b]
  }

  // --- how the list functions follow a change of the pool ---

  lemma ContentSplit(view: World, a: MultiBuffer, b: MultiBuffer)
    requires Holds(view, a + b)
    ensures Holds(view, a) && Holds(view, b)
    ensures Content(view, a + b) == Content(view, a) + Content(view, b)
  {
    assert forall i :: 0 <= i < |a| ==> a[i] == (a + b)[i];
    assert forall i :: 0 <= i < |b| ==> b[i] == (a + b)[|a| + i];
    assert Views(view, a + b) == Views(view, a) + Views(view, b);
    GatherAppend(ViewBytes, Views(view, a), Views(view, b));
  }

  lemma ContentOne(view: World, b: Buffer)
    requires b in view
    ensures Holds(view, [b]) && Content(view, [b]) == view[b].data
  {
    assert Views(view, [b]) == [view[b]];
    GatherOne(ViewBytes, view[b]);
  }

  lemma ContentSame(view: World, view': World, mb: MultiBuffer)
    requires Holds(view, mb)
    requires forall b :: b in mb ==> b in view' && view'[b] == view[b]
    ensures Holds(view', mb) && Views(view', mb) == Views(view, mb)
  {
    assert forall i :: 0 <= i < |mb| ==> mb[i] in mb;
  }

  /** A list that keeps clear of mb rides along with the others. */
  lemma ContentAway(view: World, view': World, mb: MultiBuffer, mb': MultiBuffer, away: MultiBuffer)
    requires Holds(view, away) && forall b :: b in away ==> b !in mb
    requires Others(view, mb) == Others(view', mb')
    ensures Holds(view', away) && Views(view', away) == Views(view, away)
    ensures forall b :: b in away ==> b !in mb'
  {
    forall b | b in away
      ensures b in view' && view'[b] == view[b] && b !in mb'
    {
      assert b in Others(view, mb);
      assert b in Others(view', mb');
    }
    ContentSame(view, view', away);
  }

  lemma AddedLast(view: World, mb: MultiBuffer, b: Buffer, w: View)
    requires Holds(view, mb) && b !in view
    ensures Holds(view[b := w], mb + [b])
    ensures Content(view[b := w], mb + [b]) == Content(view, mb) + w.data
    ensures Others(view[b := w], mb + [b]) == Others(view, mb)
  {
    var view' := view[b := w];
    ContentSame(view, view', mb);
    assert Holds(view', mb + [b]);
    ContentSplit(view', mb, [b]);
    ContentOne(view', b);
  }

  lemma AddedOne(view: World, b: Buffer, w: View)
    requires b !in view
    ensures Holds(view[b := w], [b]) && Content(view[b := w], [b]) == w.data
    ensures Others(view[b := w], [b]) == view
  {
    ContentOne(view[b := w], b);
  }

  lemma ChangedLast(view: World, mb: MultiBuffer, w: View)
    requires Holds(view, mb) && mb != []
    ensures var b := mb[|mb| - 1];
            && Holds(view[b := w], mb)
            && Content(view, mb) == Content(view, mb[..|mb| - 1]) + view[b].data
            && Content(view[b := w], mb) == Content(view, mb[..|mb| - 1]) + w.data
            && Others(view[b := w], mb) == Others(view, mb)
  {
    var k := |mb| - 1;
    var b := mb[k];
    var init := mb[..k];
    var view' := view[b := w];
    assert mb == init + [b];
    ContentSplit(view, init, [b]);
    ContentOne(view, b);
    assert Holds(view', mb);
    ContentSplit(view', init, [b]);
    ContentOne(view', b);
    ContentSame(view, view', init);
  }

  lemma ChangedFirst(view: World, mb: MultiBuffer, w: View)
    requires Holds(view, mb) && mb != []
    ensures Holds(view[mb[0] := w], mb)
    ensures Content(view, mb) == view[mb[0]].data + Content(view, mb[1..])
    ensures Content(view[mb[0] := w], mb) == w.data + Content(view, mb[1..])
    ensures Others(view[mb[0] := w], mb) == Others(view, mb)
  {
    var view' := view[mb[0] := w];
    var tail := mb[1..];
    assert mb == [mb[0]] + tail;
    ContentSplit(view, [mb[0]], tail);
    ContentOne(view, mb[0]);
    assert Holds(view', mb);
    ContentSplit(view', [mb[0]], tail);
    ContentOne(view', mb[0]);
    ContentSame(view, view', tail);
  }

  lemma DroppedFirst(view: World, mb: MultiBuffer)
    requires Holds(view, mb) && mb != []
    ensures Holds(view - {mb[0]}, mb[1..])
    ensures Content(view, mb) == view[mb[0]].data + Content(view - {mb[0]}, mb[1..])
    ensures Others(view - {mb[0]}, mb[1..]) == Others(view, mb)
  {
    ChangedFirst(view, mb, view[mb[0]]);
    var view' := view - {mb[0]};
    var tail := mb[1..];
    assert Holds(view, tail);
    forall b | b in tail
      ensures b in view'
    {
      var i :| 0 <= i < |tail| && tail[i] == b;
      assert mb[i + 1] == b;
    }
    ContentSame(view, view', tail);
    assert forall b :: b in mb <==> b == mb[0] || b in tail by {
      assert mb == [mb[0]] + tail;
    }
  }

  lemma ContentNone(view: World)
    ensures Holds(view, []) && Content(view, []) == []
  {
  }

  // --- the operations ---

  /** append(dest, src...): the buffers change hands, no byte is touched. */
  method MergeMulti(ghost view: World, dest: MultiBuffer, src: MultiBuffer) returns (r: MultiBuffer)
    requires Holds(view, dest) && Holds(view, src) && forall b :: b in src ==> b !in dest
    ensures r == dest + src && Holds(view, r)
    ensures Content(view, r) == Content(view, dest) + Content(view, src)
    ensures Others(view, r) == Others(Others(view, dest), src)
  {
    r := dest + src;
    assert forall j :: 0 <= j < |src| ==> src[j] in src && src[j] !in dest;
    ContentSplit(view, dest, src);
  }

  /** A view as MergeBytes makes it: unread, regular size, not empty. */
  predicate Chunk(w: View) {
    w.start == 0 && w.vlen == SIZE && 0 < |w.data| <= SIZE
  }

  /** New and Write in one: a buffer with as much of src as fits. */
  method NewWith(pool: Pool, src: seq<byte>) returns (b: Buffer, n: nat)
    requires pool.Valid() && src != []
    modifies pool.Repr
    ensures pool.Valid() && fresh(pool.Repr - old(pool.Repr))
    ensures 0 < n == Min(|src|, SIZE)
    ensures b !in old(pool.view) && pool.view == old(pool.view)[b := View(src[..n], 0, SIZE)]
  {
    hide Pool.Valid;
    b := new Buffer.New(pool);
    n := b.Write(pool, src);
    assert [] + src[..n] == src[..n];
  }

  /** One turn of the loop of MergeBytes. */
  method AppendNew(pool: Pool, mb: MultiBuffer, src: seq<byte>) returns (r: MultiBuffer, n: nat)
    requires pool.Valid() && Holds(pool.view, mb) && src != []
    modifies pool.Repr
    ensures pool.Valid() && fresh(pool.Repr - old(pool.Repr))
    ensures Holds(pool.view, r) && |r| == |mb| + 1 && r[..|mb|] == mb
    ensures 0 < n == Min(|src|, SIZE) && Content(pool.view, r) == old(Content(pool.view, mb)) + src[..n]
    ensures Others(pool.view, r) == old(Others(pool.view, mb))
    ensures forall i :: 0 <= i < |mb| ==> pool.view[mb[i]] == old(pool.view)[mb[i]]
    ensures pool.view[r[|mb|]] == View(src[..n], 0, SIZE)
  {
    hide Pool.Valid;
    ghost var view := pool.view;
    var b;
    b, n := NewWith(pool, src);
    AddedLast(view, mb, b, View(src[..n], 0, SIZE));
    r := mb + [b];
  }

  /** The first half of MergeBytes: tops up the last buffer. */
  method TopUp(pool: Pool, mb: MultiBuffer, src: seq<byte>) returns (left: seq<byte>)
    requires pool.Valid() && Holds(pool.view, mb)
    modifies pool.Repr
    ensures pool.Valid() && pool.Repr == old(pool.Repr) && Holds(pool.view, mb)
    ensures Content(pool.view, mb) + left == old(Content(pool.view, mb)) + src
    ensures Others(pool.view, mb) == old(Others(pool.view, mb))
  {
    hide Pool.Valid;
    left := src;
    if |mb| > 0 {
      var last := mb[|mb| - 1];
      var full := last.IsFull(pool);
      if !full {
        ghost var view := pool.view;
        var n := last.Write(pool, src);
        ChangedLast(view, mb, pool.view[last]);
        left := src[n..];
      }
    }
  }

  method MergeBytes(pool: Pool, dest: MultiBuffer, src: seq<byte>) returns (r: MultiBuffer)
    requires pool.Valid() && Holds(pool.view, dest)
    modifies pool.Repr
    ensures pool.Valid() && fresh(pool.Repr - old(pool.Repr))
    ensures Holds(pool.view, r) && |dest| <= |r| && r[..|dest|] == dest
    ensures Content(pool.view, r) == old(Content(pool.view, dest)) + src
    ensures Others(pool.view, r) == old(Others(pool.view, dest))
    ensures forall i :: |dest| <= i < |r| ==> Chunk(pool.view[r[i]])
  {
    hide Pool.Valid;
    r := dest;
    var left := TopUp(pool, dest, src);
    while |left| > 0
      invariant pool.Valid() && fresh(pool.Repr - old(pool.Repr))
      invariant Holds(pool.view, r) && |dest| <= |r| && r[..|dest|] == dest
      invariant Content(pool.view, r) + left == old(Content(pool.view, dest)) + src
      invariant Others(pool.view, r) == old(Others(pool.view, dest))
      invariant forall i :: |dest| <= i < |r| ==> Chunk(pool.view[r[i]])
      decreases |left|
    {
      ghost var r0 := r;
      var n;
      r, n := AppendNew(pool, r, left);
      assert forall i :: 0 <= i < |r0| ==> r[i] == r0[i];
      left := left[n..];
    }
  }

  method ReleaseMulti(pool: Pool, mb: MultiBuffer)
    requires pool.Valid() && Holds(pool.view, mb)
    modifies pool.Repr
    ensures pool.Valid() && pool.Repr == old(pool.Repr)
    ensures pool.view == old(Others(pool.view, mb))
  {
    hide Pool.Valid;
    var i := 0;
    while i < |mb|
      invariant 0 <= i <= |mb|
      invariant pool.Valid() && pool.Repr == old(pool.Repr)
      invariant Holds(pool.view, mb[i..])
      invariant Others(pool.view, mb[i..]) == old(Others(pool.view, mb))
    {
      ghost var view := pool.view;
      DroppedFirst(view, mb[i..]);
      mb[i].Release(pool);
      assert mb[i..][1..] == mb[i + 1..];
      i := i + 1;
    }
    assert Others(pool.view, mb[i..]) == pool.view;
  }

  /** IsEmpty: no buffer holds a byte. */
  method IsEmpty(ghost pool: Pool, mb: MultiBuffer) returns (r: bool)
    requires pool.Valid() && Holds(pool.view, mb)
    ensures r <==> Content(pool.view, mb) == []
  {
    hide Pool.Valid;
    assert mb[0..] == mb;
    for i := 0 to |mb|
      invariant Holds(pool.view, mb[i..]) && Content(pool.view, mb) == Content(pool.view, mb[i..])
    {
      ChangedFirst(pool.view, mb[i..], pool.view[mb[i]]);
      assert mb[i..][1..] == mb[i + 1..];
      var empty := mb[i].IsEmpty(pool);
      if !empty {
        return false;
      }
    }
    return true;
  }

  /** String: the bytes of all buffers. */
  method ToString(ghost pool: Pool, mb: MultiBuffer) returns (s: seq<byte>)
    requires pool.Valid() && Holds(pool.view, mb)
    ensures s == Content(pool.view, mb)
  {
    hide Pool.Valid;
    hide Content;
    s := [];
    assert mb[0..] == mb;
    for i := 0 to |mb|
      invariant Holds(pool.view, mb[i..]) && Content(pool.view, mb) == s + Content(pool.view, mb[i..])
    {
      ChangedFirst(pool.view, mb[i..], pool.view[mb[i]]);
      assert mb[i..][1..] == mb[i + 1..];
      var one := mb[i].Bytes(pool);
      s := s + one;
    }
    ContentNone(pool.view);
    assert mb[|mb|..] == [];
  }

  /** One turn of the loop of SplitBytes: reads the first buffer and releases it once drained. */
  method TakeFirst(pool: Pool, mb: MultiBuffer, want: nat) returns (rest: MultiBuffer, out: seq<byte>)
    requires pool.Valid() && Holds(pool.view, mb) && mb != []
    modifies pool.Repr
    ensures pool.Valid() && pool.Repr == old(pool.Repr) && Holds(pool.view, rest)
    ensures rest == mb || rest == mb[1..]
    ensures out + Content(pool.view, rest) == old(Content(pool.view, mb))
    ensures rest == mb ==> |out| == want && Content(pool.view, rest) != []
    ensures rest == mb[1..] ==> |out| <= want
    ensures Others(pool.view, rest) == old(Others(pool.view, mb))
  {
    hide Pool.Valid;
    ghost var view := pool.view;
    var eof;
    out, eof := mb[0].Read(pool, want);
    ChangedFirst(view, mb, pool.view[mb[0]]);
    assert view[mb[0]].data == out + pool.view[mb[0]].data;
    assert out + Content(pool.view, mb) == Content(view, mb);
    rest := mb;
    var empty := mb[0].IsEmpty(pool);
    if empty {
      DroppedFirst(pool.view, mb);
      mb[0].Release(pool);
      rest := mb[1..];
    }
  }

  /** Moves up to `want` bytes out of the front of mb, releasing what it drains. */
  method SplitBytes(pool: Pool, mb: MultiBuffer, want: nat) returns (rest: MultiBuffer, out: seq<byte>)
    requires pool.Valid() && Holds(pool.view, mb)
    modifies pool.Repr
    ensures pool.Valid() && pool.Repr == old(pool.Repr) && Holds(pool.view, rest)
    ensures out == old(Content(pool.view, mb))[..Min(want, |old(Content(pool.view, mb))|)]
    ensures Content(pool.view, rest) == old(Content(pool.view, mb))[|out|..]
    ensures Others(pool.view, rest) == old(Others(pool.view, mb))
    ensures forall b :: b in rest ==> b in mb
    ensures rest != [] ==> Content(pool.view, rest) != []
  {
    hide Pool.Valid;
    hide Content;
    hide Others;
    ghost var all := Content(pool.view, mb);
    rest, out := mb, [];
    while |rest| > 0
      invariant pool.Valid() && pool.Repr == old(pool.Repr) && Holds(pool.view, rest)
      invariant |out| <= want && out + Content(pool.view, rest) == all
      invariant Others(pool.view, rest) == old(Others(pool.view, mb))
      invariant |rest| <= |mb| && rest == mb[|mb| - |rest|..]
      decreases |rest|
    {
      var rest', got := TakeFirst(pool, rest, want - |out|);
      out := out + got;
      if |rest'| == |rest| {
        return;
      }
      rest := rest';
    }
    ContentNone(pool.view);
    assert out == all;
  }

  /** Splits off the first buffer; an empty list gives none. */
  method SplitFirst(mb: MultiBuffer) returns (rest: MultiBuffer, first: Buffer?)
    ensures mb == [] ==> first == null && rest == []
    ensures mb != [] ==> first == mb[0] && rest == mb[1..]
  {
    if |mb| == 0 {
      return mb, null;
    }
    return mb[1..], mb[0];
  }
}
