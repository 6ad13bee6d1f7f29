/**
 MultiBufferContainer: a MultiBuffer behind the reader and writer interfaces refines one queue
 of bytes.
 */
module ByteContainer {
  import opened Bytes
  import opened Buffers
  import opened MultiBuffers

  /** What MultiBufferContainer is meant to be: one queue of bytes. */
  datatype Op =
    | Read(want: nat)
    | Write(data: seq<byte>)
    | WriteMulti(bytes: seq<byte>, skip: nat)   // a list that holds bytes and of which skip bytes have been read
    | ReadMulti

  datatype Answer = Bytes(got: seq<byte>) | Eof | Done

  function Fifo(queue: seq<byte>, op: Op): (seq<byte>, Answer) {
    match op
    case Read(want) =>
      if queue == [] then (queue, Eof)
      else (queue[Min(want, |queue|)..], Bytes(queue[..Min(want, |queue|)]))
    case Write(data) => (queue + data, Done)
    case WriteMulti(bytes, skip) => (queue + bytes[Min(skip, |bytes|)..], Done)
    case ReadMulti => ([], Bytes(queue))
  }

  function FifoRun(queue: seq<byte>, ops: seq<Op>): (seq<byte>, seq<Answer>)
    decreases |ops|
  {
    if ops == [] then (queue, [])
    else
      var (q1, a) := Fifo(queue, ops[0]);
      var (q2, answers) := FifoRun(q1, ops[1..]);
      (q2, [a] + answers)
  }

  /** All bytes that the operations put in. */
  function Given(ops: seq<Op>): seq<byte> {
    if ops == [] then []
    else
      (match ops[0]
       case Write(data) => data
       case WriteMulti(bytes, skip) => if skip < |bytes| then bytes[skip..] else []
       case _ => []) + Given(ops[1..])
  }

  /** All bytes that the answers hold. */
  function Taken(answers: seq<Answer>): seq<byte> {
    if answers == [] then [] else (if answers[0].Bytes? then answers[0].got else []) + Taken(answers[1..])
  }

  /** What an operation may be answered. */
  predicate Fitting(op: Op, a: Answer) {
    match op
    case Read(want) => a == Eof || (a.Bytes? && Min(want, 1) <= |a.got| <= want)
    case ReadMulti => a.Bytes?
    case _ => a == Done
  }

  /** One operation: nothing is lost or invented, the order is kept, and EOF means an empty queue. */
  lemma OneConserves(queue: seq<byte>, op: Op)
    ensures var (left, a) := Fifo(queue, op);
            && (if a.Bytes? then a.got else []) + left == queue + Given([op]) && Fitting(op, a)
            && (a == Eof ==> queue == [] && left == [])
            && (op.ReadMulti? ==> left == [])
  {
    assert Given([op]) == match op {
      case Write(data) => data
      case WriteMulti(bytes, skip) => if skip < |bytes| then bytes[skip..] else []
      case _ => []
    };
  }

  lemma GivenFirst(ops: seq<Op>)
    requires ops != []
    ensures Given(ops) == Given([ops[0]]) + Given(ops[1..])
  {
    assert ops == [ops[0]] + ops[1..];
  }

  /** Over every run: what the reads got, and then what is left, is what was there and then what was given. */
  lemma {:induction false} FifoConserves(queue: seq<byte>, ops: seq<Op>)
    ensures var (left, answers) := FifoRun(queue, ops);
            && |answers| == |ops| && Taken(answers) + left == queue + Given(ops)
            && forall i :: 0 <= i < |ops| ==> Fitting(ops[i], answers[i])
    decreases |ops|
  {
    if ops == [] {
    } else {
      var (q1, a) := Fifo(queue, ops[0]);
      var (left, answers) := FifoRun(q1, ops[1..]);
      FifoConserves(q1, ops[1..]);
      OneConserves(queue, ops[0]);
      GivenFirst(ops);
      assert FifoRun(queue, ops) == (left, [a] + answers) && ([a] + answers)[1..] == answers;
      hide Fifo;
      hide FifoRun;
      hide Given;
      var got := if a.Bytes? then a.got else [];
      assert Taken([a] + answers) == got + Taken(answers);
      Conserved(got, q1, queue, Given([ops[0]]), Taken(answers), left, Given(ops[1..]));
      forall i | 0 <= i < |ops|
        ensures Fitting(ops[i], ([a] + answers)[i])
      {
        if i > 0 {
          assert ops[i] == ops[1..][i - 1];
        }
      }
    }
  }

  lemma Conserved(got: seq<byte>, q1: seq<byte>, queue: seq<byte>, put: seq<byte>,
                  taken: seq<byte>, left: seq<byte>, given: seq<byte>)
    requires got + q1 == queue + put && taken + left == q1 + given
    ensures (got + taken) + left == queue + (put + given)
  {
    assert (got + taken) + left == got + (taken + left);
    assert got + (q1 + given) == (got + q1) + given;
    assert (queue + put) + given == queue + (put + given);
  }

  /** MultiBufferContainer: a MultiBuffer behind the reader and writer interfaces. */
  class Container {
    var mb: MultiBuffer
    const pool: Pool

    ghost predicate Valid()
      reads this, pool, pool.Repr
    {
      pool.Valid() && this !in pool.Repr && Holds(pool.view, mb)
    }

    /** The queue the container stands for. */
    ghost function Queue(): seq<byte>
      requires Valid()
      reads this, pool, pool.Repr
    {
      Content(pool.view, mb)
    }

    constructor (pool: Pool)
      requires pool.Valid()
      ensures Valid() && this.pool == pool && Queue() == []
    {
      this.pool, mb := pool, [];
    }

    method Read(want: nat) returns (a: Answer)
      requires Valid()
      modifies this, pool.Repr
      ensures Valid() && pool.Repr == old(pool.Repr)
      ensures (Queue(), a) == Fifo(old(Queue()), Op.Read(want))
      ensures Others(pool.view, mb) == old(Others(pool.view, mb))
    {
      hide Pool.Valid;
      var empty := IsEmpty(pool, mb);
      if empty {
        return Eof;
      }
      var rest, out := SplitBytes(pool, mb, want);
      mb := rest;
      a := Bytes(out);
    }

    method Write(data: seq<byte>)
      requires Valid()
      modifies this, pool.Repr
      ensures Valid() && fresh(pool.Repr - old(pool.Repr))
      ensures Queue() == Fifo(old(Queue()), Op.Write(data)).0
      ensures Others(pool.view, mb) == old(Others(pool.view, mb))
    {
      hide Pool.Valid;
      mb := MergeBytes(pool, mb, data);
    }

    method WriteMultiBuffer(src: MultiBuffer)
      requires Valid() && Holds(pool.view, src) && forall b :: b in src ==> b !in mb
      modifies this
      ensures Valid() && mb == old(mb) + src
      ensures Queue() == Fifo(old(Queue()), WriteMulti(Content(pool.view, src), 0)).0
      ensures Others(pool.view, mb) == Others(Others(pool.view, old(mb)), src)
    {
      hide Pool.Valid;
      mb := MergeMulti(pool.view, mb, src);
    }

    method ReadMultiBuffer() returns (r: MultiBuffer)
      requires Valid()
      modifies this
      ensures Valid() && mb == [] && r == old(mb) && Holds(pool.view, r)
      ensures (Queue(), Bytes(Content(pool.view, r))) == Fifo(old(Queue()), ReadMulti)
    {
      hide Pool.Valid;
      r := mb;
      mb := [];
    }

    method Close()
      requires Valid()
      modifies this, pool.Repr
      ensures Valid() && pool.Repr == old(pool.Repr)
      ensures Queue() == [] && pool.view == old(Others(pool.view, mb))
    {
      hide Pool.Valid;
      ReleaseMulti(pool, mb);
      mb := [];
    }

    /** A client builds a MultiBuffer, reads some of it and hands over the rest. */
    method HandOver(bytes: seq<byte>, skip: nat)
      requires Valid()
      modifies this, pool.Repr
      ensures Valid() && fresh(pool.Repr - old(pool.Repr))
      ensures Queue() == Fifo(old(Queue()), WriteMulti(bytes, skip)).0
      ensures Others(pool.view, mb) == old(Others(pool.view, mb))
    {
      hide Pool.Valid;
      ghost var view := pool.view;
      var src := BuildPart(bytes, skip);
      WriteMultiBuffer(src);
      assert forall b :: b in mb <==> b in old(mb) || b in src;
      assert Others(pool.view, mb) == Others(view, old(mb));
    }

    method BuildPart(bytes: seq<byte>, skip: nat) returns (src: MultiBuffer)
      requires Valid()
      modifies pool.Repr
      ensures Valid() && fresh(pool.Repr - old(pool.Repr)) && mb == old(mb) && Queue() == old(Queue())
      ensures Holds(pool.view, src) && Content(pool.view, src) == bytes[Min(skip, |bytes|)..]
      ensures Others(pool.view, src) == old(pool.view) && forall b :: b in src ==> b !in mb
    {
      hide Pool.Valid;
      ghost var view := pool.view;
      assert Others(view, []) == view && Content(view, []) + bytes == bytes;
      var all := MergeBytes(pool, [], bytes);
      var out;
      src, out := SplitBytes(pool, all, skip);
      hide Content;
      hide Others;
      ContentAway(view, pool.view, [], src, mb);
    }

    /** A client takes the MultiBuffer, uses its bytes and releases it. */
    method TakeOver() returns (all: seq<byte>)
      requires Valid()
      modifies this, pool.Repr
      ensures Valid() && pool.Repr == old(pool.Repr)
      ensures (Queue(), Bytes(all)) == Fifo(old(Queue()), ReadMulti)
      ensures Others(pool.view, mb) == old(Others(pool.view, mb))
    {
      hide Pool.Valid;
      var r := ReadMultiBuffer();
      all := ToString(pool, r);
      ReleaseMulti(pool, r);
      assert Others(pool.view, []) == pool.view;
    }

    /** One operation, as a client performs it. */
    method Perform(op: Op) returns (a: Answer)
      requires Valid()
      modifies this, pool.Repr
      ensures Valid() && fresh(pool.Repr - old(pool.Repr))
      ensures (Queue(), a) == Fifo(old(Queue()), op)
      ensures Others(pool.view, mb) == old(Others(pool.view, mb))
    {
      hide Pool.Valid;
      match op {
        case Read(want) =>
          a := Read(want);
        case Write(data) =>
          Write(data);
          a := Done;
        case WriteMulti(bytes, skip) =>
          HandOver(bytes, skip);
          a := Done;
        case ReadMulti =>
          var all := TakeOver();
          a := Bytes(all);
      }
    }

    /** Every interleaving of the operations answers exactly as the queue of bytes would. */
    method Run(ops: seq<Op>) returns (answers: seq<Answer>)
      requires Valid()
      modifies this, pool.Repr
      ensures Valid() && fresh(pool.Repr - old(pool.Repr))
      ensures (Queue(), answers) == FifoRun(old(Queue()), ops)
      ensures Others(pool.view, mb) == old(Others(pool.view, mb))
    {
      hide Pool.Valid;
      answers := [];
      ghost var q0 := Queue();
      for i := 0 to |ops|
        invariant Valid() && fresh(pool.Repr - old(pool.Repr))
        invariant FifoRun(q0, ops).0 == FifoRun(Queue(), ops[i..]).0
        invariant FifoRun(q0, ops).1 == answers + FifoRun(Queue(), ops[i..]).1
        invariant Others(pool.view, mb) == old(Others(pool.view, mb))
      {
        var a := Perform(ops[i]);
        assert ops[i..][1..] == ops[i + 1..];
        answers := answers + [a];
      }
      assert ops[|ops|..] == [];
      assert FifoRun(Queue(), ops[|ops|..]) == (Queue(), []);
      assert FifoRun(q0, ops).1 == answers;
    }
  }
}
