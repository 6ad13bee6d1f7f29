/**
 The hunk reader of the gRPC tunnel as a function of what the stream still holds.

 `ReadMulti` is one call of HunkReaderWriter.ReadMultiBuffer; `Deliver` is everything that calls
 until the end of the stream return.  Delivering each received byte once and in order is the
 purpose, and `DeliverExact` says precisely on which streams the code does so.
 */
module Hunks {
  import opened Bytes
  import opened Buffers

  /** A received hunk: its bytes, and the capacity of the slice that the decoder put them in. */
  datatype Hunk = Hunk(data: seq<byte>, cap: nat) {
    predicate Proper() { |data| <= cap }
    /** An empty slice of less than a regular buffer. */
    predicate Void() { data == [] && cap < SIZE }
  }

  /** The cursor fields buf and index: all read, or part of a hunk left. */
  datatype Cursor = Spent | Partly(hunk: Hunk, index: nat)

  datatype Reply = End | Chunk(bytes: seq<byte>)

  datatype Step = Step(reply: Reply, cursor: Cursor, queue: seq<Hunk>)

  ghost predicate Proper(c: Cursor, q: seq<Hunk>) {
    && (forall i :: 0 <= i < |q| ==> q[i].Proper())
    && (c.Partly? ==> c.hunk.Proper() && c.index < |c.hunk.data|)
  }

  function CursorAt(h: Hunk, index: nat): Cursor {
    if index < |h.data| then Partly(h, index) else Spent
  }

  /** h.Read of `want` bytes: fetches when the cursor is spent, then copies what fits. */
  function ReadUpTo(c: Cursor, q: seq<Hunk>, want: nat): Step
    requires c.Partly? ==> c.index < |c.hunk.data|
  {
    if c.Spent? && q == [] then Step(End, Spent, q)
    else
      var (h, i, rest) := if c.Spent? then (q[0], 0, q[1..]) else (c.hunk, c.index, q);
      var n := Min(want, |h.data| - i);
      Step(Chunk(h.data[i..i + n]), CursorAt(h, i + n), rest)
  }

  /** ReadMultiBuffer: a big slice is handed over whole, a small one is copied into a new buffer. */
  function ReadMulti(c: Cursor, q: seq<Hunk>): Step
    requires c.Partly? ==> c.index < |c.hunk.data|
  {
    if c.Spent? && q == [] then Step(End, Spent, q)
    else
      var (h, i, rest) := if c.Spent? then (q[0], 0, q[1..]) else (c.hunk, c.index, q);
      if h.cap >= SIZE then Step(Chunk(h.data), Spent, rest)
      else ReadUpTo(CursorAt(h, i), rest, SIZE)
  }

  ghost function Work(c: Cursor, q: seq<Hunk>): nat {
    2 * |q| + if c.Partly? then 1 else 0
  }

  /** Every chunk uses up a hunk or what the cursor had left. */
  lemma ReadMultiWorks(c: Cursor, q: seq<Hunk>)
    requires Proper(c, q)
    ensures var s := ReadMulti(c, q);
            Proper(s.cursor, s.queue) && (s.reply.Chunk? ==> Work(s.cursor, s.queue) < Work(c, q))
  {
  }

  /** All bytes that reading to the end returns. */
  ghost function Deliver(c: Cursor, q: seq<Hunk>): seq<byte>
    requires Proper(c, q)
    decreases Work(c, q)
  {
    var s := ReadMulti(c, q);
    ReadMultiWorks(c, q);
    match s.reply
    case End => []
    case Chunk(bytes) => bytes + Deliver(s.cursor, s.queue)
  }

  /** How many of the calls until the end return nothing and no error. */
  ghost function Blanks(c: Cursor, q: seq<Hunk>): nat
    requires Proper(c, q)
    decreases Work(c, q)
  {
    var s := ReadMulti(c, q);
    ReadMultiWorks(c, q);
    match s.reply
    case End => 0
    case Chunk(bytes) => (if bytes == [] then 1 else 0) + Blanks(s.cursor, s.queue)
  }

  function HunkBytes(h: Hunk): seq<byte> {
    h.data
  }

  function Data(q: seq<Hunk>): seq<byte> {
    Gather(HunkBytes, q)
  }

  /**
   How often a stream makes the reader repeat itself.  After a void hunk the copying branch
   fetches a second hunk; if that one is longer than a regular buffer, its first SIZE bytes are
   copied out and then the whole of it is handed over.
   */
  function Repeats(q: seq<Hunk>): nat {
    if q == [] then 0
    else if !q[0].Void() then Repeats(q[1..])
    else if |q| == 1 then 0
    else (if |q[1].data| > SIZE then 1 else 0) + Repeats(q[2..])
  }

  /** One call on a spent cursor, by the shape of the stream. */
  lemma ReadMultiCases(q: seq<Hunk>)
    requires Proper(Spent, q) && q != []
    ensures !q[0].Void() ==> ReadMulti(Spent, q) == Step(Chunk(q[0].data), Spent, q[1..])
    ensures q[0].Void() && |q| == 1 ==> ReadMulti(Spent, q) == Step(End, Spent, [])
    ensures q[0].Void() && |q| > 1 && |q[1].data| <= SIZE ==>
              ReadMulti(Spent, q) == Step(Chunk(q[1].data), Spent, q[2..])
    ensures q[0].Void() && |q| > 1 && |q[1].data| > SIZE ==>
              ReadMulti(Spent, q) == Step(Chunk(q[1].data[..SIZE]), Partly(q[1], SIZE), q[2..])
  {
    assert q[0].data[0..|q[0].data|] == q[0].data;
    if |q| > 1 {
      assert q[1].data[0..|q[1].data|] == q[1].data;
      assert q[1..][1..] == q[2..];
    }
  }

  lemma {:induction false} DeliverLength(q: seq<Hunk>)
    requires Proper(Spent, q)
    ensures |Deliver(Spent, q)| == |Data(q)| + SIZE * Repeats(q)
    ensures Repeats(q) == 0 ==> Deliver(Spent, q) == Data(q)
    decreases |q|
  {
    if q == [] {
    } else {
      ReadMultiCases(q);
      if !q[0].Void() {
        DeliverLength(q[1..]);
      } else if |q| == 1 {
        assert q == [q[0]];
        GatherOne(HunkBytes, q[0]);
      } else {
        DeliverLength(q[2..]);
        assert q[1..][1..] == q[2..];
        assert Data(q[1..]) == q[1].data + Data(q[2..]);
        assert Data(q) == q[0].data + Data(q[1..]);
        if |q[1].data| > SIZE {
          DeliverRest(q[1], q[2..]);
        }
      }
    }
  }

  /** A long hunk that was begun by copying is then handed over whole. */
  lemma DeliverRest(h: Hunk, q: seq<Hunk>)
    requires h.Proper() && |h.data| > SIZE && Proper(Spent, q)
    ensures Deliver(Partly(h, SIZE), q) == h.data + Deliver(Spent, q)
  {
    assert ReadMulti(Partly(h, SIZE), q) == Step(Chunk(h.data), Spent, q);
  }

  /** The reader delivers each byte once and in order exactly on the streams that do not repeat. */
  lemma DeliverExact(q: seq<Hunk>)
    requires Proper(Spent, q)
    ensures Deliver(Spent, q) == Data(q) <==> Repeats(q) == 0
  {
    DeliverLength(q);
  }

  /** A stream without empty hunks never repeats, whatever the lengths and capacities. */
  lemma {:induction false} NonEmptyNeverRepeats(q: seq<Hunk>)
    requires forall i :: 0 <= i < |q| ==> q[i].data != []
    ensures Repeats(q) == 0
  {
    if q == [] {
    } else {
      NonEmptyNeverRepeats(q[1..]);
    }
  }

  /** And every call on it returns something. */
  lemma {:induction false} NonEmptyNeverBlank(q: seq<Hunk>)
    requires Proper(Spent, q) && forall i :: 0 <= i < |q| ==> q[i].data != []
    ensures Blanks(Spent, q) == 0
  {
    if q == [] {
    } else {
      ReadMultiCases(q);
      NonEmptyNeverBlank(q[1..]);
    }
  }

  /** Nor does a stream whose hunks all fit a regular buffer. */
  lemma {:induction false} SmallNeverRepeats(q: seq<Hunk>)
    requires forall i :: 0 <= i < |q| ==> |q[i].data| <= SIZE
    ensures Repeats(q) == 0
    decreases |q|
  {
    if q == [] {
    } else {
      if !q[0].Void() || |q| == 1 {
        SmallNeverRepeats(q[1..]);
      } else {
        SmallNeverRepeats(q[2..]);
      }
    }
  }

  /** No empty hunk is followed by one that is longer than a regular buffer. */
  ghost predicate Sendable(datas: seq<seq<byte>>) {
    forall i :: 0 <= i < |datas| - 1 && datas[i] == [] ==> |datas[i + 1]| <= SIZE
  }

  /** The bytes of the hunks, whatever the capacities. */
  ghost predicate Holding(q: seq<Hunk>, datas: seq<seq<byte>>) {
    |q| == |datas| && forall i :: 0 <= i < |q| ==> q[i].data == datas[i] && q[i].Proper()
  }

  function Datas(q: seq<Hunk>): seq<seq<byte>> {
    seq(|q|, i requires 0 <= i < |q| => q[i].data)
  }

  lemma {:induction false} SendableNeverRepeats(q: seq<Hunk>, datas: seq<seq<byte>>)
    requires Holding(q, datas) && Sendable(datas)
    ensures Repeats(q) == 0
    decreases |q|
  {
    if q == [] {
    } else {
      if !q[0].Void() || |q| == 1 {
        SendableNeverRepeats(q[1..], datas[1..]);
      } else {
        assert datas[0] == [] && q[1].data == datas[1];
        SendableNeverRepeats(q[2..], datas[2..]);
      }
    }
  }

  /** Behind hunks that are not void, a void one and a long one repeat. */
  lemma {:induction false} PairRepeats(q: seq<Hunk>, i: nat)
    requires i + 1 < |q| && q[i].Void() && |q[i + 1].data| > SIZE
    requires forall j :: 0 <= j < i ==> !q[j].Void()
    ensures Repeats(q) > 0
  {
    if i > 0 {
      PairRepeats(q[1..], i - 1);
    }
  }

  /** Capacities that make a pair repeat: roomy ones before it, none for the empty hunk. */
  lemma Repeating(datas: seq<seq<byte>>, i: nat) returns (q: seq<Hunk>)
    requires i + 1 < |datas| && datas[i] == [] && |datas[i + 1]| > SIZE
    ensures Holding(q, datas) && Repeats(q) > 0
  {
    q := seq(|datas|, j requires 0 <= j < |datas| => Hunk(datas[j], if j == i then 0 else |datas[j]| + SIZE));
    PairRepeats(q, i);
  }

  /**
   What a sender has to keep to.  Hunks with these bytes are delivered once and in order, whatever
   capacities the peer's decoder chooses, if and only if none that is empty is followed by one that
   is longer than a regular buffer.
   */
  lemma SafeToSendIff(datas: seq<seq<byte>>)
    ensures (forall q :: Holding(q, datas) ==> Proper(Spent, q) && Deliver(Spent, q) == Data(q)) <==> Sendable(datas)
  {
    if Sendable(datas) {
      forall q | Holding(q, datas)
        ensures Proper(Spent, q) && Deliver(Spent, q) == Data(q)
      {
        SendableNeverRepeats(q, datas);
        DeliverExact(q);
      }
    } else {
      var i :| 0 <= i < |datas| - 1 && datas[i] == [] && |datas[i + 1]| > SIZE;
      var q := Repeating(datas, i);
      DeliverExact(q);
      assert Deliver(Spent, q) != Data(q);
    }
  }

  /** Between calls the cursor is spent as long as the stream does not repeat: index == len(buf). */
  lemma CursorStaysSpent(q: seq<Hunk>)
    requires Proper(Spent, q) && Repeats(q) == 0
    ensures ReadMulti(Spent, q).cursor == Spent && Repeats(ReadMulti(Spent, q).queue) == 0
  {
    if q != [] {
      ReadMultiCases(q);
    }
  }

  /** The smallest failing stream: one empty hunk, then one of SIZE + 1 bytes. */
  lemma EmptyThenLongRepeats(long: Hunk)
    requires long.Proper() && |long.data| == SIZE + 1
    ensures Deliver(Spent, [Hunk([], 0), long]) == long.data[..SIZE] + long.data
    ensures Repeats([Hunk([], 0), long]) == 1
  {
    var q := [Hunk([], 0), long];
    assert q[2..] == [];
    ReadMultiCases(q);
    DeliverRest(long, []);
  }

  // --- buffers that are dropped ---

  /** Whether reading to the end finds it in the copying branch, behind a hunk that was fetched. */
  ghost predicate Drops(c: Cursor, q: seq<Hunk>)
    requires Proper(c, q)
    decreases Work(c, q)
  {
    var s := ReadMulti(c, q);
    ReadMultiWorks(c, q);
    match s.reply
    case End => q != []
    case Chunk(_) => Drops(s.cursor, s.queue)
  }

  /** The number of void hunks at the end of a stream. */
  function TrailingVoids(q: seq<Hunk>): nat {
    if q == [] || !q[|q| - 1].Void() then 0 else 1 + TrailingVoids(q[..|q| - 1])
  }

  lemma {:induction false} VoidsBehind(h: Hunk, q: seq<Hunk>)
    ensures TrailingVoids([h] + q) == if TrailingVoids(q) == |q| && h.Void() then |q| + 1 else TrailingVoids(q)
  {
    var all := [h] + q;
    if q == [] {
      assert all[..0] == [];
    } else {
      assert all[..|all| - 1] == [h] + q[..|q| - 1];
      VoidsBehind(h, q[..|q| - 1]);
    }
  }

  lemma {:induction false} VoidsWithin(q: seq<Hunk>)
    ensures TrailingVoids(q) <= |q|
  {
    if q == [] {
    } else {
      VoidsWithin(q[..|q| - 1]);
    }
  }

  /** In front of a stream, a hunk that is not void and a pair behind a void one change nothing. */
  lemma VoidsParity(q: seq<Hunk>)
    requires q != []
    ensures !q[0].Void() ==> TrailingVoids(q) == TrailingVoids(q[1..])
    ensures q[0].Void() && |q| == 1 ==> TrailingVoids(q) == 1
    ensures q[0].Void() && |q| > 1 ==> TrailingVoids(q) % 2 == TrailingVoids(q[2..]) % 2
  {
    hide TrailingVoids;
    assert q == [q[0]] + q[1..];
    VoidsBehind(q[0], q[1..]);
    VoidsWithin(q[1..]);
    if |q| > 1 {
      assert q[1..] == [q[1]] + q[2..];
      VoidsBehind(q[1], q[2..]);
      VoidsWithin(q[2..]);
    }
  }

  /** After one call, whatever the call was, the rest decides. */
  lemma DropsNext(q: seq<Hunk>)
    requires Proper(Spent, q) && q != []
    ensures !q[0].Void() ==> Proper(Spent, q[1..]) && Drops(Spent, q) == Drops(Spent, q[1..])
    ensures q[0].Void() && |q| == 1 ==> Drops(Spent, q)
    ensures q[0].Void() && |q| > 1 ==> Proper(Spent, q[2..]) && Drops(Spent, q) == Drops(Spent, q[2..])
  {
    ReadMultiCases(q);
    ReadMultiWorks(Spent, q);
    if q[0].Void() && |q| > 1 && |q[1].data| > SIZE {
      assert ReadMulti(Partly(q[1], SIZE), q[2..]) == Step(Chunk(q[1].data), Spent, q[2..]);
    }
  }

  /** Reading to the end drops a buffer exactly on the streams that end in an odd number of void hunks. */
  lemma {:induction false} DropsIff(q: seq<Hunk>)
    requires Proper(Spent, q)
    ensures Drops(Spent, q) <==> TrailingVoids(q) % 2 == 1
    decreases |q|
  {
    if q == [] {
    } else {
      VoidsParity(q);
      DropsNext(q);
      hide Drops;
      hide TrailingVoids;
      if !q[0].Void() {
        DropsIff(q[1..]);
      } else if |q| > 1 {
        DropsIff(q[2..]);
      }
    }
  }

  /** The smallest such stream: one empty hunk. */
  lemma OneVoidDrops()
    ensures Drops(Spent, [Hunk([], 0)]) && TrailingVoids([Hunk([], 0)]) == 1
  {
    DropsIff([Hunk([], 0)]);
  }
}
