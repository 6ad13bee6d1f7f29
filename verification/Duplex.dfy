/**
 Two connections joined by a tunnel, in either mode: over every run of writes and reads at both
 ends, what has been read, what is buffered and what is in flight is, in this order, what has been
 written.
 */
module Duplex {
  import opened Bytes
  import opened Buffers
  import opened MultiBuffers
  import opened Hunks
  import opened HunkConn
  import opened MultiHunkConn
  import opened Pipe

  /** x writes to the link that y reads from. */
  ghost predicate Linked(x: Source, y: Source) {
    match (x, y)
    case (Single(h), Single(k)) => h != k && h.output == k.input
    case (Multi(m), Multi(n)) => m != n && m.output == n.input
    case _ => false
  }

  /** On a steady source, reading to the end returns just what the peer has in flight. */
  lemma PendingIsInFlight(x: Source, y: Source, pool: Pool)
    requires Linked(x, y) && SourceValid(y, pool) && Steady(y)
    ensures Pending(y, pool) == InFlight(x) && Hollow(y, pool) == OutHollow(x)
  {
    if y.Single? {
      NonEmptyNeverRepeats(y.h.input.queue);
      NonEmptyNeverBlank(y.h.input.queue);
      DeliverExact(y.h.input.queue);
    }
  }

  /** The tunnel end that the connection reads from has not been closed. */
  ghost predicate Open(c: Connection)
    reads Near(c.reader.reader)
  {
    !Closed(c.reader.reader)
  }

  /** A write here cannot fail: nothing is closed, and the link to the peer is reliable. */
  ghost predicate Able(c: Connection)
    reads c, Near(c.reader.reader)
  {
    !c.done && !Closed(c.reader.reader) && Reliable(c.reader.reader)
  }

  /** The two ends, apart from each other. */
  ghost predicate Joined(pool: Pool, x: Connection, y: Connection)
    reads *
  {
    && x != y && x.reader != y.reader
    && x.Valid(pool) && y.Valid(pool)
    && Linked(x.reader.reader, y.reader.reader) && Linked(y.reader.reader, x.reader.reader)
    && Steady(x.reader.reader) && Steady(y.reader.reader)
    && forall b :: b in x.reader.buffer ==> b !in y.reader.buffer
  }

  /** How many messages without a byte x has in flight. */
  ghost function Voids(x: Connection): nat
    reads OutLink(x.reader.reader)
  {
    OutHollow(x.reader.reader)
  }

  /** What y has buffered, and then what x has in flight towards it. */
  ghost function Underway(pool: Pool, x: Connection, y: Connection): seq<byte>
    requires Joined(pool, x, y) || Joined(pool, y, x)
    reads *
  {
    Content(pool.view, y.reader.buffer) + InFlight(x.reader.reader)
  }

  /** The live buffers that neither end has in its list. */
  ghost function Elsewhere(view: World, a: MultiBuffer, b: MultiBuffer): World {
    Others(Others(view, a), b)
  }

  lemma ElsewhereSwap(view: World, a: MultiBuffer, b: MultiBuffer)
    ensures Elsewhere(view, a, b) == Elsewhere(view, b, a)
  {
  }

  /** What no write and no read at either end changes. */
  datatype Frame = Frame(single: bool, openX: bool, openY: bool, ableX: bool, ableY: bool, shutX: bool, shutY: bool, rest: World) {
    ghost function Flip(): Frame {
      Frame(single, openY, openX, ableY, ableX, shutY, shutX, rest)
    }
  }

  ghost function FrameOf(pool: Pool, x: Connection, y: Connection): Frame
    reads *
  {
    Frame(x.reader.reader.Single?, Open(x), Open(y), Able(x), Able(y), x.done, y.done,
          Elsewhere(pool.view, x.reader.buffer, y.reader.buffer))
  }

  lemma FrameFlip(pool: Pool, x: Connection, y: Connection)
    requires Joined(pool, x, y)
    ensures FrameOf(pool, y, x) == FrameOf(pool, x, y).Flip()
  {
    ElsewhereSwap(pool.view, x.reader.buffer, y.reader.buffer);
  }

  ghost function Everything(pool: Pool, x: Connection, y: Connection): set<object>
    reads *
  {
    x.reader.World(pool) + y.reader.World(pool)
  }

  /** What writing at x may change: the link to y, and the pool. */
  lemma WritesAside(pool: Pool, x: Connection, y: Connection)
    requires Joined(pool, x, y)
    ensures {x, y, x.reader, y.reader} !! OutLink(x.reader.reader) + pool.Repr
    ensures Parts(x.reader.reader) !! OutLink(x.reader.reader) + pool.Repr
    ensures OutLink(y.reader.reader) + Near(y.reader.reader) !! OutLink(x.reader.reader) + pool.Repr
  {
    hide Pool.Valid;
    hide Content;
    hide Holds;
    hide Regular;
  }

  /** A write at x, seen from the writer: nothing but its link changes. */
  method WriteNear(pool: Pool, x: Connection, y: Connection, data: seq<byte>) returns (ok: bool, ghost taken: nat)
    requires Joined(pool, x, y)
    modifies Everything(pool, x, y)
    ensures Joined(pool, x, y) && pool.view == old(pool.view)
    ensures fresh(Everything(pool, x, y) - old(Everything(pool, x, y)))
    ensures x.reader.buffer == old(x.reader.buffer) && y.reader.buffer == old(y.reader.buffer)
    ensures x.done == old(x.done) && y.done == old(y.done) && Open(x) == old(Open(x)) && Open(y) == old(Open(y))
    ensures taken <= |data| && (ok ==> taken == |data|)
    ensures (!ok ==> !Able(x)) && (x.done ==> !ok && taken == 0)
    ensures InFlight(x.reader.reader) == old(InFlight(x.reader.reader)) + data[..taken]
    ensures InFlight(y.reader.reader) == old(InFlight(y.reader.reader))
    ensures Voids(x) == old(Voids(x)) + (if ok && data == [] && x.reader.reader.Multi? then 1 else 0)
    ensures Voids(y) == old(Voids(y))
  {
    hide Pool.Valid;
    hide Content;
    hide Holds;
    hide Pending;
    hide Data;
    hide AllData;
    hide Empties;
    hide Hollow;
    hide Regular;
    hide BufferedReader.Remaining;
    WritesAside(pool, x, y);
    var n;
    n, ok, taken := x.Write(pool, data);
    assert x.Valid(pool) && y.Valid(pool);
    assert Steady(x.reader.reader) && Steady(y.reader.reader);
  }

  /** A write at x adds to what is under way to y, and to nothing else; it fails only for a cause. */
  method WriteAt(pool: Pool, x: Connection, y: Connection, data: seq<byte>) returns (ok: bool, ghost taken: nat)
    requires Joined(pool, x, y)
    modifies Everything(pool, x, y)
    ensures Joined(pool, x, y) && pool.view == old(pool.view) && FrameOf(pool, x, y) == old(FrameOf(pool, x, y))
    ensures fresh(Everything(pool, x, y) - old(Everything(pool, x, y)))
    ensures taken <= |data| && (ok ==> taken == |data|)
    ensures (!ok ==> !Able(x)) && (x.done ==> !ok && taken == 0)
    ensures Underway(pool, x, y) == old(Underway(pool, x, y)) + data[..taken]
    ensures Underway(pool, y, x) == old(Underway(pool, y, x))
    ensures Voids(x) == old(Voids(x)) + (if ok && data == [] && x.reader.reader.Multi? then 1 else 0)
    ensures Voids(y) == old(Voids(y))
  {
    JoinedHolds(pool, x, y);
    hide Joined;
    hide Everything;
    hide Voids;
    hide InFlight;
    hide Content;
    hide Holds;
    hide Closed;
    hide Elsewhere;
    ok, taken := WriteNear(pool, x, y, data);
    Assoc(old(Content(pool.view, y.reader.buffer)), old(InFlight(x.reader.reader)), data[..taken]);
  }

  lemma JoinedHolds(pool: Pool, x: Connection, y: Connection)
    requires Joined(pool, x, y)
    ensures Holds(pool.view, x.reader.buffer) && Holds(pool.view, y.reader.buffer)
  {
  }

  /** A write at x. */
  method Send(pool: Pool, x: Connection, y: Connection, data: seq<byte>, ghost l: Ledger) returns (ok: bool, ghost taken: nat)
    requires Kept(pool, x, y, l)
    modifies Everything(pool, x, y)
    ensures FrameOf(pool, x, y) == old(FrameOf(pool, x, y)) && fresh(Everything(pool, x, y) - old(Everything(pool, x, y)))
    ensures var act, e, f := Put(true, data), Effect(ok, [], taken), FrameOf(pool, x, y);
            Possible(act, e) && Fated(act, e, f) && Kept(pool, x, y, Booked(l, act, e, f.single))
  {
    hide Joined;
    hide Underway;
    hide Everything;
    hide Voids;
    hide Able;
    hide Open;
    hide Elsewhere;
    ghost var was := Underway(pool, x, y);
    ok, taken := WriteAt(pool, x, y, data);
    Assoc(l.gy, was, data[..taken]);
  }

  /** A read at y changes what belongs to y's reader, and keeps y in order. */
  method ReadOwn(pool: Pool, y: Connection, want: nat) returns (ok: bool, out: seq<byte>)
    requires y.Valid(pool) && Steady(y.reader.reader)
    modifies y.reader.World(pool)
    ensures y.Valid(pool) && Steady(y.reader.reader) && Closed(y.reader.reader) == old(Closed(y.reader.reader))
    ensures fresh(y.reader.World(pool) - old(y.reader.World(pool)))
    ensures |out| <= want && out + y.reader.Remaining(pool) == old(y.reader.Remaining(pool))
    ensures !ok ==> out == [] && (Closed(y.reader.reader) || y.reader.Remaining(pool) == [])
    ensures Others(pool.view, y.reader.buffer) == old(Others(pool.view, y.reader.buffer))
    ensures Hollow(y.reader.reader, pool) + Blank(ok, want, out) <= old(Hollow(y.reader.reader, pool))
    ensures ok && want > 0 && y.reader.reader.Single? ==> out != []
  {
    hide Pool.Valid;
    hide Content;
    hide Holds;
    hide Pending;
    hide Data;
    hide AllData;
    hide Regular;
    hide BufferedReader.Remaining;
    ok, out := y.reader.Read(pool, want);
  }

  /** What reading at y may change is nothing of x's. */
  lemma Untouched(pool: Pool, x: Connection, y: Connection)
    requires Joined(pool, x, y)
    ensures x !in y.reader.World(pool) && x.reader !in y.reader.World(pool)
    ensures Parts(x.reader.reader) !! y.reader.World(pool)
  {
    hide Pool.Valid;
    hide Content;
    hide Holds;
    hide Regular;
  }

  /** A read at y, seen from the reader: the other end is as it was. */
  method ReadNear(pool: Pool, x: Connection, y: Connection, want: nat) returns (ok: bool, out: seq<byte>)
    requires Joined(pool, x, y)
    modifies Everything(pool, x, y)
    ensures Joined(pool, x, y) && FrameOf(pool, x, y) == old(FrameOf(pool, x, y))
    ensures fresh(Everything(pool, x, y) - old(Everything(pool, x, y)))
    ensures |out| <= want && out + y.reader.Remaining(pool) == old(y.reader.Remaining(pool))
    ensures x.reader.buffer == old(x.reader.buffer)
    ensures Content(pool.view, x.reader.buffer) == old(Content(pool.view, x.reader.buffer))
    ensures InFlight(y.reader.reader) == old(InFlight(y.reader.reader)) && Voids(y) == old(Voids(y))
    ensures !ok ==> out == [] && (Open(y) ==> y.reader.Remaining(pool) == [])
    ensures ok && want > 0 && y.reader.reader.Single? ==> out != []
    ensures Hollow(y.reader.reader, pool) + Blank(ok, want, out) <= old(Hollow(y.reader.reader, pool))
  {
    hide Pool.Valid;
    hide Content;
    hide Holds;
    hide Pending;
    hide Hollow;
    hide Blank;
    hide Empties;
    hide Data;
    hide AllData;
    hide Regular;
    hide BufferedReader.Remaining;
    hide Others;
    hide Elsewhere;
    ghost var view, was, mine := pool.view, y.reader.buffer, x.reader.buffer;
    Untouched(pool, x, y);
    ok, out := ReadOwn(pool, y, want);
    assert x.reader.buffer == mine;
    Apart(view, pool.view, was, y.reader.buffer, mine);
    assert x.Valid(pool);
  }

  lemma RemainingIsUnderway(pool: Pool, x: Connection, y: Connection)
    requires Joined(pool, x, y)
    ensures y.reader.Remaining(pool) == Underway(pool, x, y) && Hollow(y.reader.reader, pool) == Voids(x)
  {
    PendingIsInFlight(x.reader.reader, y.reader.reader, pool);
  }

  /** A read at y takes from what is under way to it, and from nothing else. */
  method ReadAt(pool: Pool, x: Connection, y: Connection, want: nat) returns (ok: bool, out: seq<byte>)
    requires Joined(pool, x, y)
    modifies Everything(pool, x, y)
    ensures Joined(pool, x, y) && FrameOf(pool, x, y) == old(FrameOf(pool, x, y))
    ensures fresh(Everything(pool, x, y) - old(Everything(pool, x, y)))
    ensures |out| <= want && out + Underway(pool, x, y) == old(Underway(pool, x, y))
    ensures Underway(pool, y, x) == old(Underway(pool, y, x))
    ensures !ok ==> out == [] && (Open(y) ==> Underway(pool, x, y) == [])
    ensures ok && want > 0 && y.reader.reader.Single? ==> out != []
    ensures Voids(x) + Blank(ok, want, out) <= old(Voids(x)) && Voids(y) == old(Voids(y))
  {
    hide Joined;
    hide Open;
    hide Everything;
    hide InFlight;
    hide Content;
    hide Voids;
    hide Blank;
    hide FrameOf;
    hide BufferedReader.Remaining;
    RemainingIsUnderway(pool, x, y);
    ok, out := ReadNear(pool, x, y, want);
    RemainingIsUnderway(pool, x, y);
  }

  /** A read at y. */
  method Receive(pool: Pool, x: Connection, y: Connection, want: nat, ghost l: Ledger) returns (ok: bool, out: seq<byte>)
    requires Kept(pool, x, y, l)
    modifies Everything(pool, x, y)
    ensures FrameOf(pool, x, y) == old(FrameOf(pool, x, y)) && fresh(Everything(pool, x, y) - old(Everything(pool, x, y)))
    ensures var act, e, f := Take(false, want), Effect(ok, out, 0), FrameOf(pool, x, y);
            && Possible(act, e) && Kept(pool, x, y, Booked(l, act, e, f.single))
            && Drained(act, e, Booked(l, act, e, f.single), f)
    ensures ok && want > 0 && y.reader.reader.Single? ==> out != []
  {
    hide Joined;
    hide Open;
    hide Underway;
    hide Everything;
    hide Voids;
    hide Able;
    hide Elsewhere;
    ok, out := ReadAt(pool, x, y, want);
    Assoc(l.gy, out, Underway(pool, x, y));
  }

  /** A read at one end leaves the buffers of the other end as they are, and those of nobody. */
  lemma Apart(view: World, view': World, mb: MultiBuffer, mb': MultiBuffer, away: MultiBuffer)
    requires Holds(view, away) && forall b :: b in away ==> b !in mb
    requires Others(view, mb) == Others(view', mb')
    ensures Holds(view', away) && Content(view', away) == Content(view, away)
    ensures forall b :: b in away ==> b !in mb'
    ensures Elsewhere(view', away, mb') == Elsewhere(view, away, mb)
  {
    ContentAway(view, view', mb, mb', away);
    ElsewhereSwap(view, away, mb);
    ElsewhereSwap(view', away, mb');
  }

  // --- whole runs ---

  datatype Act = Put(atX: bool, data: seq<byte>) | Take(atX: bool, want: nat)

  /** How an act ended: whether without error, what a read returned, how much a write put in flight. */
  datatype Effect = Effect(ok: bool, out: seq<byte>, taken: nat)

  /** What may come of an act, by itself. */
  predicate Possible(act: Act, e: Effect) {
    match act
    case Put(_, data) => e.taken <= |data| && (e.ok ==> e.taken == |data|) && e.out == []
    case Take(_, want) => e.taken == 0 && |e.out| <= want && (!e.ok ==> e.out == [])
  }

  /** All bytes that the acts put in flight at one end. */
  ghost function Sent(acts: seq<Act>, es: seq<Effect>, atX: bool): seq<byte>
    requires |acts| == |es| && forall i :: 0 <= i < |acts| ==> Possible(acts[i], es[i])
  {
    if acts == [] then []
    else
      var n := |acts| - 1;
      assert Possible(acts[n], es[n]);
      Sent(acts[..n], es[..n], atX) + (if acts[n].Put? && acts[n].atX == atX then acts[n].data[..es[n].taken] else [])
  }

  /** All bytes that the reads at one end returned. */
  ghost function Got(acts: seq<Act>, es: seq<Effect>, atX: bool): seq<byte>
    requires |acts| == |es|
  {
    if acts == [] then []
    else
      var n := |acts| - 1;
      Got(acts[..n], es[..n], atX) + (if acts[n].Take? && acts[n].atX == atX then es[n].out else [])
  }

  /** All bytes that the acts offer at one end. */
  function Offered(acts: seq<Act>, atX: bool): seq<byte> {
    if acts == [] then []
    else
      var n := |acts| - 1;
      Offered(acts[..n], atX) + (if acts[n].Put? && acts[n].atX == atX then acts[n].data else [])
  }

  /** How many empty writes at one end were sent. */
  ghost function EmptyPuts(acts: seq<Act>, es: seq<Effect>, atX: bool): nat
    requires |acts| == |es|
  {
    if acts == [] then 0
    else
      var n := |acts| - 1;
      EmptyPuts(acts[..n], es[..n], atX) + if acts[n].Put? && acts[n].atX == atX then Empty(acts[n].data, es[n]) else 0
  }

  function Empty(data: seq<byte>, e: Effect): nat {
    if e.ok && data == [] then 1 else 0
  }

  /** How many reads at one end asked for something, did not fail and returned nothing. */
  ghost function BlankTakes(acts: seq<Act>, es: seq<Effect>, atX: bool): nat
    requires |acts| == |es|
  {
    if acts == [] then 0
    else
      var n := |acts| - 1;
      BlankTakes(acts[..n], es[..n], atX) +
      if acts[n].Take? && acts[n].atX == atX then Blank(es[n].ok, acts[n].want, es[n].out) else 0
  }

  /** No write at this end failed. */
  predicate AllOk(acts: seq<Act>, es: seq<Effect>, atX: bool)
    requires |acts| == |es|
  {
    forall i :: 0 <= i < |acts| && acts[i].Put? && acts[i].atX == atX ==> es[i].ok
  }

  /** Without failed writes all that was offered is sent. */
  lemma {:induction false} AllSent(acts: seq<Act>, es: seq<Effect>, atX: bool)
    requires |acts| == |es| && forall i :: 0 <= i < |acts| ==> Possible(acts[i], es[i])
    requires AllOk(acts, es, atX)
    ensures Sent(acts, es, atX) == Offered(acts, atX)
  {
    if acts == [] {
    } else {
      var n := |acts| - 1;
      AllSent(acts[..n], es[..n], atX);
      assert acts[n].Put? && acts[n].atX == atX ==> acts[n].data[..es[n].taken] == acts[n].data;
    }
  }

  /**
   The bytes exchanged so far, sent and got at either end, and how many messages without a byte may
   still be on their way.
   */
  datatype Ledger = Ledger(sx: seq<byte>, gy: seq<byte>, vx: int, sy: seq<byte>, gx: seq<byte>, vy: int) {
    function Flip(): Ledger {
      Ledger(sy, gx, vy, sx, gy, vx)
    }
  }

  ghost predicate Kept(pool: Pool, x: Connection, y: Connection, l: Ledger)
    reads *
  {
    && Joined(pool, x, y)
    && l.gy + Underway(pool, x, y) == l.sx && l.gx + Underway(pool, y, x) == l.sy
    && Voids(x) <= l.vx && Voids(y) <= l.vy
  }

  lemma Mirror(pool: Pool, x: Connection, y: Connection, l: Ledger)
    requires Kept(pool, x, y, l)
    ensures Kept(pool, y, x, l.Flip()) && FrameOf(pool, y, x) == FrameOf(pool, x, y).Flip()
    ensures Everything(pool, y, x) == Everything(pool, x, y)
  {
    FrameFlip(pool, x, y);
  }

  /** The ledger after one more act. */
  ghost function Booked(l: Ledger, act: Act, e: Effect, single: bool): Ledger
    requires Possible(act, e)
  {
    match act
    case Put(true, data) => l.(sx := l.sx + data[..e.taken], vx := l.vx + if single then 0 else Empty(data, e))
    case Put(false, data) => l.(sy := l.sy + data[..e.taken], vy := l.vy + if single then 0 else Empty(data, e))
    case Take(false, want) => l.(gy := l.gy + e.out, vx := l.vx - Blank(e.ok, want, e.out))
    case Take(true, want) => l.(gx := l.gx + e.out, vy := l.vy - Blank(e.ok, want, e.out))
  }

  /** A read that fails at an open end has had everything that the other end sent. */
  ghost predicate Drained(act: Act, e: Effect, l: Ledger, f: Frame) {
    act.Take? && !e.ok ==> if act.atX then f.openX ==> l.gx == l.sy else f.openY ==> l.gy == l.sx
  }

  /** A write fails only for a cause, and always on a connection that is done. */
  ghost predicate Fated(act: Act, e: Effect, f: Frame) {
    act.Put? ==>
      && (!e.ok ==> if act.atX then !f.ableX else !f.ableY)
      && ((if act.atX then f.shutX else f.shutY) ==> !e.ok && e.taken == 0)
  }

  /** One act at either end. */
  method Perform(pool: Pool, x: Connection, y: Connection, act: Act, ghost l: Ledger) returns (ok: bool, out: seq<byte>, ghost taken: nat)
    requires Kept(pool, x, y, l)
    modifies Everything(pool, x, y)
    ensures FrameOf(pool, x, y) == old(FrameOf(pool, x, y)) && fresh(Everything(pool, x, y) - old(Everything(pool, x, y)))
    ensures var e, f := Effect(ok, out, taken), FrameOf(pool, x, y);
            && Possible(act, e) && Fated(act, e, f)
            && Kept(pool, x, y, Booked(l, act, e, f.single)) && Drained(act, e, Booked(l, act, e, f.single), f)
  {
    hide Kept;
    hide FrameOf;
    hide Everything;
    taken, out := 0, [];
    match act {
      case Put(true, data) =>
        ok, taken := Send(pool, x, y, data, l);
      case Put(false, data) =>
        Mirror(pool, x, y, l);
        ok, taken := Send(pool, y, x, data, l.Flip());
        Mirror(pool, y, x, Booked(l.Flip(), Put(true, data), Effect(ok, out, taken), FrameOf(pool, y, x).single));
      case Take(false, want) =>
        ok, out := Receive(pool, x, y, want, l);
      case Take(true, want) =>
        Mirror(pool, x, y, l);
        ok, out := Receive(pool, y, x, want, l.Flip());
        Mirror(pool, y, x, Booked(l.Flip(), Take(false, want), Effect(ok, out, taken), FrameOf(pool, y, x).single));
    }
  }

  /** What the effects of a run add up to: sent and got at either end, and empty messages on their way. */
  ghost function Sum(acts: seq<Act>, es: seq<Effect>, single: bool): Ledger
    requires |acts| == |es| && forall i :: 0 <= i < |acts| ==> Possible(acts[i], es[i])
  {
    Ledger(Sent(acts, es, true), Got(acts, es, false),
           (if single then 0 else EmptyPuts(acts, es, true)) - BlankTakes(acts, es, false),
           Sent(acts, es, false), Got(acts, es, true),
           (if single then 0 else EmptyPuts(acts, es, false)) - BlankTakes(acts, es, true))
  }

  /** The effects so far are possible, and the ledger says what they add up to. */
  ghost predicate Logged(acts: seq<Act>, es: seq<Effect>, l: Ledger, single: bool) {
    && |acts| == |es| && (forall i :: 0 <= i < |acts| ==> Possible(acts[i], es[i]))
    && l == Sum(acts, es, single)
  }

  lemma LogMore(acts: seq<Act>, es: seq<Effect>, l: Ledger, act: Act, e: Effect, single: bool)
    requires Logged(acts, es, l, single) && Possible(act, e)
    ensures Logged(acts + [act], es + [e], Booked(l, act, e, single), single)
  {
    assert (acts + [act])[..|acts|] == acts && (es + [e])[..|acts|] == es;
    assert forall s: seq<byte> :: s + [] == s;
  }

  /** A failed read at an open end has had everything sent to it. */
  ghost predicate DrainedAt(acts: seq<Act>, es: seq<Effect>, i: nat, f: Frame)
    requires i < |acts| == |es|
    requires forall j :: 0 <= j < |acts| ==> Possible(acts[j], es[j])
  {
    acts[i].Take? && !es[i].ok && (if acts[i].atX then f.openX else f.openY) ==>
      Got(acts[..i + 1], es[..i + 1], acts[i].atX) == Sent(acts[..i + 1], es[..i + 1], !acts[i].atX)
  }

  /** All that is said of the acts one by one. */
  ghost predicate Told(acts: seq<Act>, es: seq<Effect>, f: Frame) {
    && |acts| == |es| && (forall i :: 0 <= i < |acts| ==> Possible(acts[i], es[i]))
    && (forall i :: 0 <= i < |acts| ==> Fated(acts[i], es[i], f))
    && (forall i :: 0 <= i < |acts| ==> DrainedAt(acts, es, i, f))
  }

  lemma ToldMore(acts: seq<Act>, es: seq<Effect>, l: Ledger, act: Act, e: Effect, f: Frame)
    requires Told(acts, es, f) && Logged(acts, es, l, f.single) && Possible(act, e)
    requires Fated(act, e, f) && Drained(act, e, Booked(l, act, e, f.single), f)
    ensures Told(acts + [act], es + [e], f) && Logged(acts + [act], es + [e], Booked(l, act, e, f.single), f.single)
  {
    LogMore(acts, es, l, act, e, f.single);
    var all, alle := acts + [act], es + [e];
    hide Fated;
    forall i | 0 <= i < |all|
      ensures DrainedAt(all, alle, i, f)
    {
      if i < |acts| {
        assert all[..i + 1] == acts[..i + 1] && alle[..i + 1] == es[..i + 1];
        assert DrainedAt(acts, es, i, f);
      } else {
        assert all[..i + 1] == all && alle[..i + 1] == alle;
      }
    }
  }

  /** The effects tell what the caller saw. */
  predicate Seen(es: seq<Effect>, oks: seq<bool>, outs: seq<seq<byte>>) {
    |oks| == |outs| == |es| && forall i :: 0 <= i < |es| ==> es[i].ok == oks[i] && es[i].out == outs[i]
  }

  lemma SeenMore(es: seq<Effect>, oks: seq<bool>, outs: seq<seq<byte>>, e: Effect)
    requires Seen(es, oks, outs)
    ensures Seen(es + [e], oks + [e.ok], outs + [e.out])
  {
  }

  const FRESH: Ledger := Ledger([], [], 0, [], [], 0)

  lemma Outset(f: Frame)
    ensures Told([], [], f) && Logged([], [], FRESH, f.single) && Seen([], [], [])
  {
  }

  /** What the single facts come to in the end. */
  lemma Outcome(acts: seq<Act>, es: seq<Effect>, f: Frame, atX: bool)
    requires Told(acts, es, f)
    ensures (if atX then f.ableX else f.ableY) ==> AllOk(acts, es, atX)
    ensures AllOk(acts, es, atX) ==> Sent(acts, es, atX) == Offered(acts, atX)
  {
    if AllOk(acts, es, atX) {
      AllSent(acts, es, atX);
    }
    assert forall i :: 0 <= i < |acts| ==> Fated(acts[i], es[i], f);
  }

  /** One more act, and one more entry in each list. */
  method Continue(pool: Pool, x: Connection, y: Connection, acts: seq<Act>, i: nat, oks: seq<bool>, outs: seq<seq<byte>>,
                  ghost es: seq<Effect>, ghost l: Ledger, ghost f: Frame)
    returns (oks': seq<bool>, outs': seq<seq<byte>>, ghost es': seq<Effect>, ghost l': Ledger)
    requires Kept(pool, x, y, l) && i < |acts| && f == FrameOf(pool, x, y)
    requires Seen(es, oks, outs) && Told(acts[..i], es, f) && Logged(acts[..i], es, l, f.single)
    modifies Everything(pool, x, y)
    ensures Kept(pool, x, y, l') && FrameOf(pool, x, y) == f && fresh(Everything(pool, x, y) - old(Everything(pool, x, y)))
    ensures Seen(es', oks', outs') && Told(acts[..i + 1], es', f) && Logged(acts[..i + 1], es', l', f.single)
  {
    hide Kept;
    hide FrameOf;
    hide Told;
    hide Logged;
    hide Seen;
    var ok, out;
    ghost var taken;
    ok, out, taken := Perform(pool, x, y, acts[i], l);
    ghost var e := Effect(ok, out, taken);
    ToldMore(acts[..i], es, l, acts[i], e, f);
    SeenMore(es, oks, outs, e);
    assert acts[..i + 1] == acts[..i] + [acts[i]];
    oks', outs', es', l' := oks + [ok], outs + [out], es + [e], Booked(l, acts[i], e, f.single);
  }

  /** The loop over the acts. */
  method PerformAll(pool: Pool, x: Connection, y: Connection, acts: seq<Act>)
    returns (oks: seq<bool>, outs: seq<seq<byte>>, ghost es: seq<Effect>, ghost l: Ledger)
    requires Kept(pool, x, y, FRESH)
    modifies Everything(pool, x, y)
    ensures Kept(pool, x, y, l) && FrameOf(pool, x, y) == old(FrameOf(pool, x, y)) && Seen(es, oks, outs)
    ensures Told(acts, es, FrameOf(pool, x, y)) && Logged(acts, es, l, FrameOf(pool, x, y).single)
  {
    hide Kept;
    hide Told;
    hide Logged;
    hide Seen;
    hide FrameOf;
    oks, outs, es := [], [], [];
    l := FRESH;
    assert acts[..0] == [];
    ghost var f := FrameOf(pool, x, y);
    Outset(f);
    for i := 0 to |acts|
      invariant Kept(pool, x, y, l) && fresh(Everything(pool, x, y) - old(Everything(pool, x, y)))
      invariant FrameOf(pool, x, y) == f
      invariant Seen(es, oks, outs) && Told(acts[..i], es, f) && Logged(acts[..i], es, l, f.single)
    {
      oks, outs, es, l := Continue(pool, x, y, acts, i, oks, outs, es, l, f);
    }
    assert acts[..|acts|] == acts;
  }

  /** In the end no more reads were blank than empty messages were sent. */
  lemma FewBlanks(pool: Pool, x: Connection, y: Connection, acts: seq<Act>, es: seq<Effect>, l: Ledger, single: bool)
    requires Kept(pool, x, y, l) && Logged(acts, es, l, single)
    ensures BlankTakes(acts, es, false) <= if single then 0 else EmptyPuts(acts, es, true)
    ensures BlankTakes(acts, es, true) <= if single then 0 else EmptyPuts(acts, es, false)
  {
    hide Joined;
    hide Underway;
  }

  /**
   The pipe theorem.  After any acts, what the reads at each end have returned, followed by what is
   buffered there and what is in flight, is what the writes at the other end have put in flight: all
   that they were given, unless one of them failed, which at an end that is open on a reliable link
   none does.  A read that fails at an open end has had all of it.  A read that does not fail returns
   something, except in multi-hunk mode for as many empty writes as were made.  The live buffers are
   those of before and what the two ends have in their lists.
   */
  method Run(pool: Pool, x: Connection, y: Connection, acts: seq<Act>)
    returns (oks: seq<bool>, outs: seq<seq<byte>>, ghost es: seq<Effect>)
    requires Kept(pool, x, y, FRESH)
    modifies Everything(pool, x, y)
    ensures FrameOf(pool, x, y) == old(FrameOf(pool, x, y))
    ensures Seen(es, oks, outs) && Told(acts, es, FrameOf(pool, x, y))
    ensures Kept(pool, x, y, Sum(acts, es, x.reader.reader.Single?))
    ensures Able(x) ==> AllOk(acts, es, true)
    ensures Able(y) ==> AllOk(acts, es, false)
    ensures forall atX :: AllOk(acts, es, atX) ==> Sent(acts, es, atX) == Offered(acts, atX)
    ensures forall atX :: BlankTakes(acts, es, atX) <= if x.reader.reader.Single? then 0 else EmptyPuts(acts, es, !atX)
  {
    ghost var l;
    oks, outs, es, l := PerformAll(pool, x, y, acts);
    ghost var f := FrameOf(pool, x, y);
    Outcome(acts, es, f, true);
    Outcome(acts, es, f, false);
    FewBlanks(pool, x, y, acts, es, l, f.single);
    assert Able(x) == f.ableX && Able(y) == f.ableY && x.reader.reader.Single? == f.single;
    assert Told(acts, es, f) && l == Sum(acts, es, f.single);
    hide *;
  }

  /** cnc.NewConnection over one tunnel end. */
  method NewConnection(pool: Pool, s: Source) returns (c: Connection)
    requires pool.Valid() && SourceValid(s, pool) && OutRegular(s)
    ensures fresh(c) && fresh(c.reader) && c.reader.reader == s && !c.done && c.reader.buffer == []
    ensures c.Valid(pool)
  {
    hide Pool.Valid;
    var r := new BufferedReader(s);
    c := new Connection(r);
  }

  /** Two connections over two tunnel ends that point at each other. */
  method Join(pool: Pool, sx: Source, sy: Source) returns (x: Connection, y: Connection)
    requires pool.Valid() && SourceValid(sx, pool) && SourceValid(sy, pool) && Steady(sx) && Steady(sy)
    requires Linked(sx, sy) && Linked(sy, sx) && InFlight(sx) == [] && InFlight(sy) == []
    requires OutRegular(sx) && OutRegular(sy) && OutHollow(sx) == OutHollow(sy) == 0
    ensures Kept(pool, x, y, FRESH) && !x.done && !y.done && x.reader.reader == sx && y.reader.reader == sy
  {
    hide Pool.Valid;
    hide Regular;
    hide Data;
    hide AllData;
    hide Empties;
    hide Pending;
    ContentNone(pool.view);
    hide Holds;
    hide Content;
    x := NewConnection(pool, sx);
    y := NewConnection(pool, sy);
  }

  /** NewHunkConn at both ends. */
  method OpenHunks(reliable: bool) returns (pool: Pool, x: Connection, y: Connection)
    ensures Kept(pool, x, y, FRESH) && Able(x) == Able(y) == reliable
  {
    hide Kept;
    pool := new Pool();
    hide Pool.Valid;
    var l := new Link(reliable);
    var r := new Link(reliable);
    var h := new HunkReaderWriter(l, r);
    var k := new HunkReaderWriter(r, l);
    x, y := Join(pool, Single(h), Single(k));
  }

  /** NewMultiHunkConn at both ends. */
  method OpenMulti(reliable: bool) returns (pool: Pool, x: Connection, y: Connection)
    ensures Kept(pool, x, y, FRESH) && Able(x) == Able(y) == reliable
  {
    hide Kept;
    pool := new Pool();
    hide Pool.Valid;
    var l := new MultiLink(reliable);
    var r := new MultiLink(reliable);
    var m := new MultiHunkReaderWriter(l, r);
    var n := new MultiHunkReaderWriter(r, l);
    x, y := Join(pool, Multi(m), Multi(n));
  }
}
