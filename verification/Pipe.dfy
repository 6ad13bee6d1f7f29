/**
 The byte pipe: cnc.connection, its BufferedReader and its SequentialWriter, over the hunk
 reader and writer of a gRPC tunnel.
 */
module Pipe {
  import opened Bytes
  import opened Buffers
  import opened MultiBuffers
  import opened Hunks
  import opened HunkConn
  import opened MultiHunkConn

  // --- writing ---

  /** A hunk as our own writer sends it. */
  predicate Regular(h: Hunk) {
    0 < |h.data| <= SIZE && h.Proper()
  }

  /** q continues q0 by one hunk per view. */
  ghost predicate Extends(q0: seq<Hunk>, q: seq<Hunk>, vs: seq<View>) {
    && |q| == |q0| + |vs| && q[..|q0|] == q0
    && forall i :: 0 <= i < |vs| ==> q[|q0| + i].data == vs[i].data
  }

  lemma {:induction false} ExtendsData(q0: seq<Hunk>, q: seq<Hunk>, vs: seq<View>)
    requires Extends(q0, q, vs)
    ensures Data(q) == Data(q0) + Concat(vs)
    decreases |vs|
  {
    if vs == [] {
      assert q == q0;
    } else {
      var k := |vs| - 1;
      var q1 := q[..|q| - 1];
      assert Extends(q0, q1, vs[..k]);
      ExtendsData(q0, q1, vs[..k]);
      assert q == q1 + [q[|q| - 1]] && vs == vs[..k] + [vs[k]];
      GatherSnoc(HunkBytes, q1, q[|q| - 1]);
      GatherSnoc(ViewBytes, vs[..k], vs[k]);
    }
  }

  lemma ExtendsMore(q0: seq<Hunk>, q1: seq<Hunk>, q2: seq<Hunk>, vs: seq<View>, n: nat)
    requires n < |vs| && Extends(q0, q1, vs[..n]) && Extends(q1, q2, [vs[n]])
    ensures Extends(q0, q2, vs[..n + 1])
  {
    assert q2[..|q1|] == q1;
    assert q2[|q0| + n].data == [vs[n]][0].data;
  }

  lemma ViewsTail(view: World, mb: MultiBuffer)
    requires Holds(view, mb) && mb != []
    ensures Holds(view - {mb[0]}, mb[1..])
    ensures Views(view - {mb[0]}, mb[1..]) == Views(view, mb)[1..]
  {
    DroppedFirst(view, mb);
  }

  /** One turn of the loop of WriteMultiBuffer: write the first buffer, then release it. */
  method WriteFirst(pool: Pool, w: HunkReaderWriter, b: Buffer, ghost mb: MultiBuffer) returns (ok: bool)
    requires pool.Valid() && w.Valid(pool) && Holds(pool.view, mb) && mb != [] && b == mb[0]
    modifies w.output, pool.Repr
    ensures pool.Valid() && w.Valid(pool) && pool.Repr == old(pool.Repr)
    ensures if ok then Extends(old(w.output.queue), w.output.queue, [old(pool.view)[b]])
            else w.output.queue == old(w.output.queue) && (w.done || w.output.broken)
    ensures Holds(pool.view, mb[1..]) && Views(pool.view, mb[1..]) == old(Views(pool.view, mb))[1..]
    ensures Others(pool.view, mb[1..]) == old(Others(pool.view, mb))
  {
    hide Pool.Valid;
    DroppedFirst(pool.view, mb);
    ViewsTail(pool.view, mb);
    var bytes := b.Bytes(pool);
    ok := w.Write(pool, bytes);
    b.Release(pool);
  }

  /** Writes and releases buffer after buffer; an error leaves the buffers behind the failing one. */
  method WriteMultiBuffer(pool: Pool, w: HunkReaderWriter, mb: MultiBuffer)
    returns (ok: bool, left: MultiBuffer, ghost sent: nat)
    requires pool.Valid() && w.Valid(pool) && Holds(pool.view, mb)
    modifies w.output, pool.Repr
    ensures pool.Valid() && w.Valid(pool) && pool.Repr == old(pool.Repr)
    ensures sent <= |mb| && Extends(old(w.output.queue), w.output.queue, old(Views(pool.view, mb))[..sent])
    ensures if ok then sent == |mb| && left == [] else sent < |mb| && left == mb[sent + 1..]
    ensures !ok ==> w.done || w.output.broken
    ensures Holds(pool.view, left) && Others(pool.view, left) == old(Others(pool.view, mb))
  {
    hide Pool.Valid;
    hide HunkReaderWriter.Valid;
    hide Others;
    left, sent := mb, 0;
    ghost var vs := Views(pool.view, mb);
    while true
      invariant pool.Valid() && w.Valid(pool) && pool.Repr == old(pool.Repr)
      invariant sent <= |mb| && left == mb[sent..]
      invariant Holds(pool.view, left) && Others(pool.view, left) == old(Others(pool.view, mb))
      invariant Views(pool.view, left) == vs[sent..]
      invariant Extends(old(w.output.queue), w.output.queue, vs[..sent])
      decreases |left|
    {
      var rest, b := SplitFirst(left);
      if b == null {
        return true, [], sent;
      }
      ghost var q1 := w.output.queue;
      var written := WriteFirst(pool, w, b, left);
      left := rest;
      if !written {
        return false, left, sent;
      }
      ExtendsMore(old(w.output.queue), q1, w.output.queue, vs, sent);
      sent := sent + 1;
    }
  }

  /** SequentialWriter: whatever happens, every buffer it was given is released. */
  method WriteSequentially(pool: Pool, w: HunkReaderWriter, mb: MultiBuffer) returns (ok: bool, ghost sent: nat)
    requires pool.Valid() && w.Valid(pool) && Holds(pool.view, mb)
    modifies w.output, pool.Repr
    ensures pool.Valid() && w.Valid(pool) && pool.Repr == old(pool.Repr)
    ensures sent <= |mb| && (ok <==> sent == |mb|) && (!ok ==> w.done || w.output.broken)
    ensures Extends(old(w.output.queue), w.output.queue, old(Views(pool.view, mb))[..sent])
    ensures pool.view == old(Others(pool.view, mb))
  {
    hide Pool.Valid;
    var left;
    ok, left, sent := WriteMultiBuffer(pool, w, mb);
    ReleaseMulti(pool, left);
  }

  // --- reading ---

  /** The two readers that a connection can have. */
  datatype Source = Single(h: HunkReaderWriter) | Multi(m: MultiHunkReaderWriter)

  /** The objects that reading changes. */
  ghost function Parts(s: Source): set<object> {
    match s
    case Single(h) => {h, h.input}
    case Multi(m) => {m, m.input}
  }

  ghost function OutLink(s: Source): set<object> {
    match s
    case Single(h) => {h.output}
    case Multi(m) => {m.output}
  }

  ghost function HeldBy(s: Source): set<object>
    reads Parts(s)
  {
    match s
    case Single(h) => h.Held()
    case Multi(m) => {}
  }

  ghost predicate SourceValid(s: Source, pool: Pool)
    reads Parts(s), OutLink(s), HeldBy(s), pool
  {
    match s
    case Single(h) => h.Valid(pool)
    case Multi(m) => m.Valid(pool)
  }

  /** The reader object itself. */
  ghost function Near(s: Source): set<object> {
    match s
    case Single(h) => {h}
    case Multi(m) => {m}
  }

  ghost predicate Closed(s: Source)
    reads Near(s)
  {
    match s
    case Single(h) => h.done
    case Multi(m) => m.done
  }

  /** The bytes that reading to the end still returns. */
  ghost function Pending(s: Source, pool: Pool): seq<byte>
    requires SourceValid(s, pool)
    reads Parts(s), OutLink(s), HeldBy(s), pool
  {
    match s
    case Single(h) => Deliver(h.Cursor(), h.input.queue)
    case Multi(m) => AllData(m.input.queue)
  }

  /** How many reads to the end will return nothing and no error. */
  ghost function Hollow(s: Source, pool: Pool): nat
    requires SourceValid(s, pool)
    reads Parts(s), OutLink(s), HeldBy(s), pool
  {
    match s
    case Single(h) => Blanks(h.Cursor(), h.input.queue)
    case Multi(m) => Empties(m.input.queue)
  }

  /** What the next call returns, if it does not fail. */
  ghost function NextChunk(s: Source, pool: Pool): seq<byte>
    requires SourceValid(s, pool)
    reads Parts(s), OutLink(s), HeldBy(s), pool
  {
    match s
    case Single(h) =>
      var r := ReadMulti(h.Cursor(), h.input.queue).reply;
      if r.Chunk? then r.bytes else []
    case Multi(m) => if m.input.queue == [] then [] else Data(m.input.queue[0])
  }

  /** A read that asked for something, did not fail and returned nothing. */
  function Blank(ok: bool, want: nat, out: seq<byte>): nat {
    if ok && want > 0 && out == [] then 1 else 0
  }

  /** Between two calls on a well-behaved stream: nothing half read, only regular hunks to come. */
  ghost predicate Steady(s: Source)
    reads Parts(s), HeldBy(s)
  {
    s.Single? ==> s.h.Cursor() == Spent && forall i :: 0 <= i < |s.h.input.queue| ==> Regular(s.h.input.queue[i])
  }

  /** Every buffer of view is still there and unchanged. */
  ghost predicate Keeps(view: World, view': World) {
    forall b :: b in view ==> b in view' && view'[b] == view[b]
  }

  /** One call on a hunk stream, and what the calls behind it return. */
  lemma OneCall(c: Cursor, q: seq<Hunk>)
    requires Proper(c, q)
    ensures var s := ReadMulti(c, q);
            && Proper(s.cursor, s.queue)
            && match s.reply {
                 case End => Deliver(c, q) == Deliver(s.cursor, s.queue) == [] && Blanks(c, q) == Blanks(s.cursor, s.queue) == 0
                 case Chunk(bytes) =>
                   && bytes + Deliver(s.cursor, s.queue) == Deliver(c, q)
                   && (if bytes == [] then 1 else 0) + Blanks(s.cursor, s.queue) == Blanks(c, q)
               }
  {
    ReadMultiWorks(c, q);
  }

  /** One call on a stream of regular hunks. */
  lemma SteadyCall(q: seq<Hunk>)
    requires forall i :: 0 <= i < |q| ==> Regular(q[i])
    ensures ReadMulti(Spent, q) == if q == [] then Step(End, Spent, q) else Step(Chunk(q[0].data), Spent, q[1..])
    ensures q != [] ==> q[0].data != []
  {
    if q != [] {
      ReadMultiCases(q);
    }
  }

  /** One ReadMultiBuffer on whichever reader it is. */
  method Fetch(pool: Pool, s: Source) returns (ok: bool, mb: MultiBuffer)
    requires SourceValid(s, pool) && pool.Valid()
    modifies Parts(s), pool.Repr
    ensures SourceValid(s, pool) && pool.Valid() && Closed(s) == old(Closed(s))
    ensures fresh(pool.Repr + HeldBy(s) - old(pool.Repr + HeldBy(s)))
    ensures ok ==> Holds(pool.view, mb) && Content(pool.view, mb) + Pending(s, pool) == old(Pending(s, pool))
    ensures ok ==> Others(pool.view, mb) == old(pool.view)
    ensures !ok ==> mb == [] && Pending(s, pool) == old(Pending(s, pool)) && Keeps(old(pool.view), pool.view)
    ensures !ok && !Closed(s) ==> Pending(s, pool) == []
    ensures old(Steady(s)) ==> Steady(s) && (ok && s.Single? ==> Content(pool.view, mb) != [])
    ensures old(Steady(s)) && !ok ==> pool.view == old(pool.view)
    ensures Hollow(s, pool) + (if ok && Content(pool.view, mb) == [] then 1 else 0) == old(Hollow(s, pool))
    ensures ok ==> Content(pool.view, mb) == old(NextChunk(s, pool))
  {
    hide Pool.Valid;
    hide Blanks;
    hide Deliver;
    hide ReadMulti;
    hide Regular;
    match s {
      case Single(h) =>
        OneCall(h.Cursor(), h.input.queue);
        if Steady(s) {
          SteadyCall(h.input.queue);
        }
        ok, mb := h.ReadMultiBuffer(pool);
      case Multi(m) =>
        ok, mb := m.ReadMultiBuffer(pool);
    }
  }

  class BufferedReader {
    const reader: Source
    var buffer: MultiBuffer

    ghost predicate Valid(pool: Pool)
      reads *
    {
      && pool.Valid() && SourceValid(reader, pool)
      && this !in pool.Repr && this !in Parts(reader) + OutLink(reader) + HeldBy(reader)
      && Holds(pool.view, buffer) && (buffer != [] ==> Content(pool.view, buffer) != [])
    }

    /** All bytes that this reader will still return: the buffered ones first. */
    ghost function Remaining(pool: Pool): seq<byte>
      requires Valid(pool)
      reads *
    {
      Content(pool.view, buffer) + Pending(reader, pool)
    }

    ghost function World(pool: Pool): set<object>
      reads *
    {
      {this} + Parts(reader) + pool.Repr + HeldBy(reader)
    }

    constructor (reader: Source)
      ensures this.reader == reader && buffer == []
    {
      this.reader, buffer := reader, [];
    }

    /** The Spliter and the emptiness test that follows it; the source is not touched. */
    method Split(pool: Pool, mb: MultiBuffer, want: nat) returns (rest: MultiBuffer, out: seq<byte>)
      requires pool.Valid() && SourceValid(reader, pool) && this !in pool.Repr && Holds(pool.view, mb)
      modifies pool.Repr
      ensures pool.Valid() && SourceValid(reader, pool) && pool.Repr == old(pool.Repr)
      ensures Pending(reader, pool) == old(Pending(reader, pool)) && Hollow(reader, pool) == old(Hollow(reader, pool))
      ensures Closed(reader) == old(Closed(reader))
      ensures HeldBy(reader) == old(HeldBy(reader)) && (old(Steady(reader)) ==> Steady(reader))
      ensures Holds(pool.view, rest) && (rest != [] ==> Content(pool.view, rest) != [])
      ensures |out| == Min(want, |old(Content(pool.view, mb))|)
      ensures out + Content(pool.view, rest) == old(Content(pool.view, mb))
      ensures Others(pool.view, rest) == old(Others(pool.view, mb))
    {
      hide Pool.Valid;
      hide Others;
      hide Deliver;
      hide AllData;
      hide Regular;
      hide Holds;
      rest, out := SplitBytes(pool, mb, want);
      var empty := IsEmpty(pool, rest);
      if empty {
        rest := [];
      }
    }

    /** Gives away what is buffered, or else what the source has next. */
    method ReadMultiBuffer(pool: Pool) returns (ok: bool, mb: MultiBuffer)
      requires Valid(pool)
      modifies World(pool)
      ensures Valid(pool) && Closed(reader) == old(Closed(reader)) && fresh(World(pool) - old(World(pool)))
      ensures buffer == [] && (old(Steady(reader)) ==> Steady(reader))
      ensures ok ==> Holds(pool.view, mb) && Others(pool.view, mb) == old(Others(pool.view, buffer))
      ensures ok ==> Content(pool.view, mb) + Pending(reader, pool) == old(Remaining(pool))
      ensures old(buffer) != [] ==> ok && mb == old(buffer) && pool.view == old(pool.view)
      ensures ok && old(Steady(reader)) && reader.Single? ==> Content(pool.view, mb) != []
      ensures !ok ==> Keeps(old(pool.view), pool.view)
      ensures !ok && old(Steady(reader)) ==> pool.view == old(pool.view)
      ensures Hollow(reader, pool) + (if ok && Content(pool.view, mb) == [] then 1 else 0) == old(Hollow(reader, pool))
      ensures ok ==> Content(pool.view, mb) == old(if buffer == [] then NextChunk(reader, pool) else Content(pool.view, buffer))
      ensures !ok ==> old(Remaining(pool)) == Remaining(pool) && (Closed(reader) || Remaining(pool) == [])
    {
      hide Pool.Valid;
      hide Pending;
      hide NextChunk;
      hide Hollow;
      hide SourceValid;
      hide Steady;
      hide Keeps;
      hide Content;
      hide Holds;
      var empty := IsEmpty(pool, buffer);
      assert buffer == [] ==> Others(pool.view, buffer) == pool.view;
      hide Others;
      ContentNone(pool.view);
      if !empty {
        ok, mb := true, buffer;
        buffer := [];
      } else {
        ok, mb := Fetch(pool, reader);
        ContentNone(pool.view);
      }
    }

    /** Read takes the same two branches, and keeps what is left over. */
    method Read(pool: Pool, want: nat) returns (ok: bool, out: seq<byte>)
      requires Valid(pool)
      modifies World(pool)
      ensures Valid(pool) && Closed(reader) == old(Closed(reader)) && fresh(World(pool) - old(World(pool)))
      ensures |out| <= want && out + Remaining(pool) == old(Remaining(pool))
      ensures old(buffer) != [] ==> ok && |out| == Min(want, |old(Content(pool.view, buffer))|)
      ensures old(buffer) == [] && ok ==> |out| == Min(want, |old(NextChunk(reader, pool))|)
      ensures !ok ==> out == [] && buffer == [] && (Closed(reader) || Remaining(pool) == [])
      ensures ok ==> Others(pool.view, buffer) == old(Others(pool.view, buffer))
      ensures !ok ==> Keeps(old(pool.view), pool.view)
      ensures old(Steady(reader)) ==> Others(pool.view, buffer) == old(Others(pool.view, buffer))
      ensures Hollow(reader, pool) + Blank(ok, want, out) <= old(Hollow(reader, pool))
      ensures old(Steady(reader)) ==> Steady(reader) && (ok && want > 0 && reader.Single? ==> out != [])
    {
      hide Pool.Valid;
      hide Pending;
      hide NextChunk;
      hide Hollow;
      hide SourceValid;
      hide Steady;
      assert Near(reader) <= Parts(reader);
      hide Closed;
      hide Near;
      hide Others;
      hide Holds;
      hide Content;
      hide HeldBy;
      hide Gather;
      var mb;
      ok, mb := ReadMultiBuffer(pool);
      out := [];
      if ok {
        var rest;
        rest, out := Split(pool, mb, want);
        buffer := rest;
        Assoc(out, Content(pool.view, buffer), Pending(reader, pool));
      }
    }
  }

  /** How many reads of a series asked for something, did not fail and returned nothing. */
  function CountBlanks(sizes: seq<nat>, oks: seq<bool>, outs: seq<seq<byte>>): nat
    requires |oks| == |outs| == |sizes|
  {
    if sizes == [] then 0
    else
      var n := |sizes| - 1;
      CountBlanks(sizes[..n], oks[..n], outs[..n]) + Blank(oks[n], sizes[n], outs[n])
  }

  /** Without blank reads, each that asks for something and does not fail returns something. */
  lemma {:induction false} NoneBlank(sizes: seq<nat>, oks: seq<bool>, outs: seq<seq<byte>>, i: nat)
    requires |oks| == |outs| == |sizes| && CountBlanks(sizes, oks, outs) == 0
    requires i < |sizes| && oks[i] && sizes[i] > 0
    ensures outs[i] != []
  {
    var n := |sizes| - 1;
    if i < n {
      NoneBlank(sizes[..n], oks[..n], outs[..n], i);
    }
  }

  /** A read returns at most what it was asked for; one that fails at an open end has had all there is. */
  ghost predicate Answers(sizes: seq<nat>, oks: seq<bool>, outs: seq<seq<byte>>, all: seq<byte>, open: bool) {
    && |oks| == |outs| == |sizes|
    && (forall i :: 0 <= i < |sizes| ==> |outs[i]| <= sizes[i])
    && (forall i :: 0 <= i < |sizes| && !oks[i] ==> outs[i] == [] && (open ==> Flatten(outs[..i + 1]) == all))
  }

  /** A series of reads so far: the rest of all remains, and so do the blank reads that are still possible. */
  ghost predicate Accounted(pool: Pool, r: BufferedReader, sizes: seq<nat>, oks: seq<bool>, outs: seq<seq<byte>>,
                            all: seq<byte>, budget: nat)
    reads *
  {
    && r.Valid(pool) && Answers(sizes, oks, outs, all, !Closed(r.reader))
    && Flatten(outs) + r.Remaining(pool) == all
    && CountBlanks(sizes, oks, outs) + Hollow(r.reader, pool) <= budget
  }

  lemma AnswersMore(sizes: seq<nat>, oks: seq<bool>, outs: seq<seq<byte>>, all: seq<byte>, open: bool,
                    want: nat, ok: bool, out: seq<byte>)
    requires Answers(sizes, oks, outs, all, open) && |out| <= want
    requires !ok ==> out == [] && (open ==> Flatten(outs) == all)
    ensures Answers(sizes + [want], oks + [ok], outs + [out], all, open)
    ensures Flatten(outs + [out]) == Flatten(outs) + out
    ensures CountBlanks(sizes + [want], oks + [ok], outs + [out]) == CountBlanks(sizes, oks, outs) + Blank(ok, want, out)
  {
    GatherSnoc(Whole, outs, out);
    var sizes', oks', outs' := sizes + [want], oks + [ok], outs + [out];
    assert sizes'[..|sizes|] == sizes && oks'[..|sizes|] == oks && outs'[..|sizes|] == outs;
    forall i | 0 <= i < |sizes'| && !oks'[i]
      ensures outs'[i] == [] && (open ==> Flatten(outs'[..i + 1]) == all)
    {
      if i < |sizes| {
        assert outs'[..i + 1] == outs[..i + 1];
        assert !oks[i];
      } else {
        assert outs'[..i + 1] == outs';
      }
    }
  }

  lemma AccountedStart(pool: Pool, r: BufferedReader)
    requires r.Valid(pool)
    ensures Accounted(pool, r, [], [], [], r.Remaining(pool), Hollow(r.reader, pool))
  {
    hide BufferedReader.Valid;
    assert [] + r.Remaining(pool) == r.Remaining(pool);
  }

  lemma AccountedMeans(pool: Pool, r: BufferedReader, sizes: seq<nat>, oks: seq<bool>, outs: seq<seq<byte>>,
                       all: seq<byte>, budget: nat)
    requires Accounted(pool, r, sizes, oks, outs, all, budget)
    ensures r.Valid(pool) && Answers(sizes, oks, outs, all, !Closed(r.reader))
    ensures Flatten(outs) + r.Remaining(pool) == all
    ensures CountBlanks(sizes, oks, outs) + Hollow(r.reader, pool) <= budget
  {
  }

  method ReadMore(pool: Pool, r: BufferedReader, want: nat, ghost sizes: seq<nat>, oks: seq<bool>, outs: seq<seq<byte>>,
                  ghost all: seq<byte>, ghost budget: nat)
    returns (oks': seq<bool>, outs': seq<seq<byte>>)
    requires Accounted(pool, r, sizes, oks, outs, all, budget)
    modifies r.World(pool)
    ensures Accounted(pool, r, sizes + [want], oks', outs', all, budget) && fresh(r.World(pool) - old(r.World(pool)))
    ensures Closed(r.reader) == old(Closed(r.reader))
  {
    hide BufferedReader.Valid;
    hide BufferedReader.Remaining;
    hide BufferedReader.World;
    hide Answers;
    hide Hollow;
    hide Flatten;
    hide CountBlanks;
    hide Closed;
    var ok, out := r.Read(pool, want);
    Assoc(Flatten(outs), out, r.Remaining(pool));
    AnswersMore(sizes, oks, outs, all, !Closed(r.reader), want, ok, out);
    oks', outs' := oks + [ok], outs + [out];
  }

  /**
   Any series of reads: what is returned and what remains is what there was, a read fails at an open
   end only when nothing remains, and no more reads come out blank than the stream has blanks.
   */
  method ReadAll(pool: Pool, r: BufferedReader, sizes: seq<nat>) returns (oks: seq<bool>, outs: seq<seq<byte>>)
    requires r.Valid(pool)
    modifies r.World(pool)
    ensures r.Valid(pool) && Closed(r.reader) == old(Closed(r.reader))
    ensures Answers(sizes, oks, outs, old(r.Remaining(pool)), !Closed(r.reader))
    ensures Flatten(outs) + r.Remaining(pool) == old(r.Remaining(pool))
    ensures CountBlanks(sizes, oks, outs) + Hollow(r.reader, pool) <= old(Hollow(r.reader, pool))
  {
    hide Pool.Valid;
    hide BufferedReader.Remaining;
    hide Hollow;
    hide Accounted;
    hide Closed;
    hide Holds;
    hide Content;
    hide Answers;
    hide CountBlanks;
    hide Flatten;
    ghost var all, budget := r.Remaining(pool), Hollow(r.reader, pool);
    oks, outs := [], [];
    AccountedStart(pool, r);
    assert sizes[..0] == [];
    for i := 0 to |sizes|
      invariant Accounted(pool, r, sizes[..i], oks, outs, all, budget) && fresh(r.World(pool) - old(r.World(pool)))
      invariant Closed(r.reader) == old(Closed(r.reader))
    {
      assert sizes[..i + 1] == sizes[..i] + [sizes[i]];
      oks, outs := ReadMore(pool, r, sizes[i], sizes[..i], oks, outs, all, budget);
    }
    assert sizes[..|sizes|] == sizes;
    AccountedMeans(pool, r, sizes, oks, outs, all, budget);
  }

  /**
   Against any peer: the bytes returned and the bytes still to come are the bytes of the stream,
   each once and in order, exactly if the stream does not repeat.
   */
  method ReadMany(pool: Pool, r: BufferedReader, h: HunkReaderWriter, sizes: seq<nat>)
    returns (oks: seq<bool>, outs: seq<seq<byte>>)
    requires r.Valid(pool) && r.reader == Single(h) && r.buffer == [] && h.Cursor() == Spent
    modifies r.World(pool)
    ensures r.Valid(pool) && h.done == old(h.done)
    ensures Answers(sizes, oks, outs, Deliver(Spent, old(h.input.queue)), !h.done)
    ensures CountBlanks(sizes, oks, outs) <= Blanks(Spent, old(h.input.queue))
    ensures Flatten(outs) + r.Remaining(pool) == Data(old(h.input.queue)) <==> Repeats(old(h.input.queue)) == 0
  {
    DeliverExact(h.input.queue);
    assert r.Remaining(pool) == Deliver(Spent, h.input.queue);
    oks, outs := ReadAll(pool, r, sizes);
  }

  lemma Assoc(a: seq<byte>, b: seq<byte>, c: seq<byte>)
    ensures (a + b) + c == a + (b + c)
  {
  }

  // --- the connection ---

  /** Everything handed to the stream so far and not yet received. */
  ghost function InFlight(s: Source): seq<byte>
    reads OutLink(s)
  {
    match s
    case Single(h) => Data(h.output.queue)
    case Multi(m) => AllData(m.output.queue)
  }

  /** The latest Send failed. */
  ghost predicate Broken(s: Source)
    reads OutLink(s)
  {
    match s
    case Single(h) => h.output.broken
    case Multi(m) => m.output.broken
  }

  /** Whether sending can fail at all. */
  predicate Reliable(s: Source) {
    match s
    case Single(h) => h.output.reliable
    case Multi(m) => m.output.reliable
  }

  /** How many messages in flight carry no byte: an empty write sends one in multi-hunk mode, and nothing in hunk mode. */
  ghost function OutHollow(s: Source): nat
    reads OutLink(s)
  {
    match s
    case Single(_) => 0
    case Multi(m) => Empties(m.output.queue)
  }

  /** What our own writers put on a link in hunk mode. */
  ghost predicate OutRegular(s: Source)
    reads OutLink(s)
  {
    s.Single? ==> forall i :: 0 <= i < |s.h.output.queue| ==> Regular(s.h.output.queue[i])
  }

  /** The hunks in flight. */
  ghost function Queue(s: Source): (q: seq<Hunk>)
    requires s.Single?
    reads OutLink(s)
  {
    s.h.output.queue
  }

  /** After a write in hunk mode: what is in flight, and that the peer gets just that if nothing repeats. */
  lemma SentExactly(q0: seq<Hunk>, q: seq<Hunk>, vs: seq<View>, sent: nat)
    requires sent <= |vs| && Proper(Spent, q) && (Extends(q0, q, vs[..sent]) || (sent == 0 && q == q0))
    ensures Extends(q0, q, vs[..sent]) && Data(q) == Data(q0) + Concat(vs[..sent])
    ensures (Deliver(Spent, q) == Data(q) <==> Repeats(q) == 0) && (Sendable(Datas(q)) ==> Repeats(q) == 0)
  {
    assert Extends(q0, q, vs[..sent]);
    ExtendsData(q0, q, vs[..sent]);
    DeliverExact(q);
    if Sendable(Datas(q)) {
      SendableNeverRepeats(q, Datas(q));
    }
  }

  /** Releasing a list leaves another list as it is. */
  lemma Aside(view: World, mb: MultiBuffer, away: MultiBuffer)
    requires Holds(view, away) && forall b :: b in away ==> b !in mb
    ensures Holds(Others(view, mb), away) && Content(Others(view, mb), away) == Content(view, away)
  {
    ContentSame(view, Others(view, mb), away);
  }

  lemma TakeConcat(vs: seq<View>, n: nat)
    requires n <= |vs|
    ensures |Concat(vs[..n])| <= |Concat(vs)| && Concat(vs[..n]) == Concat(vs)[..|Concat(vs[..n])|]
    ensures n == |vs| ==> Concat(vs[..n]) == Concat(vs)
  {
    assert vs == vs[..n] + vs[n..];
    GatherAppend(ViewBytes, vs[..n], vs[n..]);
  }

  lemma ExtendsRegular(q0: seq<Hunk>, q: seq<Hunk>, vs: seq<View>)
    requires Extends(q0, q, vs) && (forall i :: 0 <= i < |q| ==> q[i].Proper())
    requires forall i :: 0 <= i < |q0| ==> Regular(q0[i])
    requires forall i :: 0 <= i < |vs| ==> MultiBuffers.Chunk(vs[i])
    ensures forall i :: 0 <= i < |q| ==> Regular(q[i])
  {
    forall i | 0 <= i < |q|
      ensures Regular(q[i])
    {
      if i < |q0| {
        assert q[..|q0|][i] == q0[i];
      } else {
        assert q[|q0| + (i - |q0|)].data == vs[i - |q0|].data;
      }
    }
  }

  /** cnc.connection: reader and writer share one tunnel end. */
  class Connection {
    const reader: BufferedReader
    var done: bool

    constructor (reader: BufferedReader)
      ensures this.reader == reader && !done
    {
      this.reader, done := reader, false;
    }

    /** Writing through a hunk tunnel: chunks of at most SIZE bytes, one hunk each. */
    method WriteHunks(pool: Pool, h: HunkReaderWriter, data: seq<byte>) returns (ok: bool, ghost taken: nat)
      requires pool.Valid() && h.Valid(pool) && OutRegular(Single(h))
      modifies h.output, pool.Repr
      ensures pool.Valid() && h.Valid(pool) && fresh(pool.Repr - old(pool.Repr)) && OutRegular(Single(h))
      ensures pool.view == old(pool.view)
      ensures taken <= |data| && (ok ==> taken == |data|) && (!ok ==> Closed(Single(h)) || Broken(Single(h)))
      ensures InFlight(Single(h)) == old(InFlight(Single(h))) + data[..taken]
    {
      hide Pool.Valid;
      assert Others(pool.view, []) == pool.view;
      var mb := MergeBytes(pool, [], data);
      ghost var q0, vs := h.output.queue, Views(pool.view, mb);
      ghost var sent;
      ok, sent := WriteSequentially(pool, h, mb);
      ExtendsData(q0, h.output.queue, vs[..sent]);
      ExtendsRegular(q0, h.output.queue, vs[..sent]);
      TakeConcat(vs, sent);
      taken := |Concat(vs[..sent])|;
    }

    /** Valid ties the connection to its reader; nothing of it belongs to the pool. */
    ghost predicate Valid(pool: Pool)
      reads *
    {
      && reader.Valid(pool) && OutRegular(reader.reader)
      && this !in reader.World(pool) + OutLink(reader.reader)
      && reader !in OutLink(reader.reader)
    }

    /** Write: every buffer it takes from the pool is back when it returns, whatever the outcome. */
    method Write(pool: Pool, data: seq<byte>) returns (n: nat, ok: bool, ghost taken: nat)
      requires Valid(pool)
      modifies OutLink(reader.reader), pool.Repr
      ensures Valid(pool) && fresh(pool.Repr - old(pool.Repr)) && pool.view == old(pool.view)
      ensures done ==> n == 0 && !ok && taken == 0
      ensures !done ==> n == |data|
      ensures taken <= |data| && (ok ==> taken == |data|)
      ensures !ok ==> done || Closed(reader.reader) || (Broken(reader.reader) && !Reliable(reader.reader))
      ensures OutHollow(reader.reader) ==
              old(OutHollow(reader.reader)) + if ok && data == [] && reader.reader.Multi? then 1 else 0
      ensures InFlight(reader.reader) == old(InFlight(reader.reader)) + data[..taken]
      ensures reader.Remaining(pool) == old(reader.Remaining(pool))
    {
      hide Pool.Valid;
      taken := 0;
      if done {
        return 0, false, taken;
      }
      n := |data|;
      match reader.reader {
        case Single(h) =>
          ok, taken := WriteHunks(pool, h, data);
        case Multi(m) =>
          ok, taken := WriteMessage(pool, m, data);
      }
    }

    /**
     WriteMultiBuffer: the given buffers are released, whatever the outcome.  In hunk mode each becomes
     a hunk as it is, so an empty one before one of more than SIZE bytes makes the peer repeat itself.
     */
    method WriteMultiBuffer(pool: Pool, mb: MultiBuffer) returns (ok: bool, ghost sent: nat)
      requires reader.Valid(pool) && reader !in OutLink(reader.reader) && this !in OutLink(reader.reader) + pool.Repr
      requires Holds(pool.view, mb) && forall b :: b in reader.buffer ==> b !in mb
      modifies OutLink(reader.reader), pool.Repr
      ensures reader.Valid(pool) && pool.Repr == old(pool.Repr) && pool.view == old(Others(pool.view, mb))
      ensures done ==> !ok && sent == 0
      ensures sent <= |mb| && (ok ==> sent == |mb|)
      ensures !ok ==> done || Closed(reader.reader) || (Broken(reader.reader) && !Reliable(reader.reader))
      ensures InFlight(reader.reader) == old(InFlight(reader.reader)) + Concat(old(Views(pool.view, mb))[..sent])
      ensures reader.reader.Single? ==>
                Extends(old(Queue(reader.reader)), Queue(reader.reader), old(Views(pool.view, mb))[..sent])
      ensures reader.reader.Single? ==>
                && (Deliver(Spent, Queue(reader.reader)) == InFlight(reader.reader) <==> Repeats(Queue(reader.reader)) == 0)
                && (Sendable(Datas(Queue(reader.reader))) ==> Repeats(Queue(reader.reader)) == 0)
      ensures reader.Remaining(pool) == old(reader.Remaining(pool))
    {
      hide Pool.Valid;
      hide Holds;
      hide Content;
      hide Others;
      hide SourceValid;
      hide Pending;
      hide InFlight;
      hide Datas;
      hide Deliver;
      hide Regular;
      hide Sendable;
      hide Repeats;
      hide Extends;
      Aside(pool.view, mb, reader.buffer);
      if done {
        ok, sent := Refuse(pool, reader.reader, mb);
      } else {
        ok, sent := WriteList(pool, reader.reader, mb);
      }
    }

    /** On a connection that is done the buffers are released and nothing is sent. */
    method Refuse(pool: Pool, s: Source, mb: MultiBuffer) returns (ok: bool, ghost sent: nat)
      requires pool.Valid() && SourceValid(s, pool) && Holds(pool.view, mb)
      modifies OutLink(s), pool.Repr
      ensures pool.Valid() && SourceValid(s, pool) && pool.Repr == old(pool.Repr) && pool.view == old(Others(pool.view, mb))
      ensures Pending(s, pool) == old(Pending(s, pool)) && Closed(s) == old(Closed(s)) && HeldBy(s) == old(HeldBy(s))
      ensures !ok && sent == 0
      ensures InFlight(s) == old(InFlight(s)) + Concat(old(Views(pool.view, mb))[..sent])
      ensures s.Single? ==>
                && Extends(old(Queue(s)), Queue(s), old(Views(pool.view, mb))[..sent])
                && (Deliver(Spent, Queue(s)) == InFlight(s) <==> Repeats(Queue(s)) == 0)
                && (Sendable(Datas(Queue(s))) ==> Repeats(Queue(s)) == 0)
    {
      hide Pool.Valid;
      hide Holds;
      hide Content;
      hide Others;
      hide AllData;
      hide Deliver;
      hide Sendable;
      hide Repeats;
      hide Extends;
      if s.Single? {
        SentExactly(Queue(s), Queue(s), Views(pool.view, mb), 0);
      }
      assert Concat(Views(pool.view, mb)[..0]) == [];
      ReleaseMulti(pool, mb);
      ok, sent := false, 0;
    }

    /** WriteMultiBuffer of whichever writer it is. */
    method WriteList(pool: Pool, s: Source, mb: MultiBuffer) returns (ok: bool, ghost sent: nat)
      requires pool.Valid() && SourceValid(s, pool) && Holds(pool.view, mb)
      modifies OutLink(s), pool.Repr
      ensures pool.Valid() && SourceValid(s, pool) && pool.Repr == old(pool.Repr) && pool.view == old(Others(pool.view, mb))
      ensures Pending(s, pool) == old(Pending(s, pool)) && Closed(s) == old(Closed(s)) && HeldBy(s) == old(HeldBy(s))
      ensures sent <= |mb| && (ok ==> sent == |mb|)
      ensures !ok ==> Closed(s) || (Broken(s) && !Reliable(s))
      ensures InFlight(s) == old(InFlight(s)) + Concat(old(Views(pool.view, mb))[..sent])
      ensures s.Single? ==>
                && Extends(old(Queue(s)), Queue(s), old(Views(pool.view, mb))[..sent])
                && (Deliver(Spent, Queue(s)) == InFlight(s) <==> Repeats(Queue(s)) == 0)
                && (Sendable(Datas(Queue(s))) ==> Repeats(Queue(s)) == 0)
    {
      hide Pool.Valid;
      hide Holds;
      hide Content;
      hide Others;
      hide Data;
      hide AllData;
      hide Deliver;
      hide Regular;
      hide Sendable;
      hide Repeats;
      hide Extends;
      match s {
        case Single(h) =>
          ok, sent := WriteSequentially(pool, h, mb);
          SentExactly(old(h.output.queue), h.output.queue, old(Views(pool.view, mb)), sent);
        case Multi(m) =>
          ok, sent := SendMessage(pool, m, mb);
      }
    }

    /** The list as one message, all or nothing. */
    method SendMessage(pool: Pool, m: MultiHunkReaderWriter, mb: MultiBuffer) returns (ok: bool, ghost sent: nat)
      requires pool.Valid() && m.Valid(pool) && Holds(pool.view, mb)
      modifies m.output, pool.Repr
      ensures pool.Valid() && m.Valid(pool) && pool.Repr == old(pool.Repr) && pool.view == old(Others(pool.view, mb))
      ensures (ok ==> sent == |mb|) && (!ok ==> sent == 0 && (Closed(Multi(m)) || Broken(Multi(m))))
      ensures InFlight(Multi(m)) == old(InFlight(Multi(m))) + Concat(old(Views(pool.view, mb))[..sent])
    {
      hide Pool.Valid;
      ghost var q0, vs := m.output.queue, Views(pool.view, mb);
      assert vs[..|mb|] == vs && vs[..0] == [];
      ok := m.WriteMultiBuffer(pool, mb);
      sent := if ok then |mb| else 0;
      if ok {
        GatherSnoc(Data, q0, m.output.queue[|q0|]);
        assert m.output.queue == q0 + [m.output.queue[|q0|]];
      }
    }

    /** Writing through a multi-hunk tunnel: one message. */
    method WriteMessage(pool: Pool, m: MultiHunkReaderWriter, data: seq<byte>) returns (ok: bool, ghost taken: nat)
      requires pool.Valid() && m.Valid(pool)
      modifies m.output, pool.Repr
      ensures pool.Valid() && m.Valid(pool) && fresh(pool.Repr - old(pool.Repr))
      ensures pool.view == old(pool.view)
      ensures taken <= |data| && (ok ==> taken == |data|) && (!ok ==> Closed(Multi(m)) || Broken(Multi(m)))
      ensures InFlight(Multi(m)) == old(InFlight(Multi(m))) + data[..taken]
      ensures OutHollow(Multi(m)) == old(OutHollow(Multi(m))) + if ok && data == [] then 1 else 0
    {
      hide Pool.Valid;
      assert Others(pool.view, []) == pool.view;
      var mb := MergeBytes(pool, [], data);
      ghost var q0 := m.output.queue;
      ok := m.WriteMultiBuffer(pool, mb);
      taken := if ok then |data| else 0;
      if ok {
        GatherSnoc(Data, q0, m.output.queue[|q0|]);
        EmptiesSnoc(q0, m.output.queue[|q0|]);
        assert m.output.queue == q0 + [m.output.queue[|q0|]];
      }
    }
  }
}
