/**
 The two counters that hand out slots in turn: the round-robin balancer's uint32 counter, and the
 stream-ID counter of the session manager.
 */
module Rotation {

  /** uint32 wraps here. */
  const WRAP: nat := 0x1_0000_0000

  /** The slot of the k-th selection after the counter read `start`, among n servers. */
  function Pick(start: nat, k: nat, n: nat): nat
    requires n > 0
  {
    ((start + k) % WRAP) % n
  }

  /** How many of m consecutive selections go to slot j. */
  function Count(start: nat, m: nat, n: nat, j: nat): nat
    requires n > 0
  {
    if m == 0 then 0 else Count(start, m - 1, n, j) + if Pick(start, m - 1, n) == j then 1 else 0
  }

  function Floor(m: nat, n: nat): nat
    requires n > 0
  {
    m / n
  }

  function Ceil(m: nat, n: nat): nat
    requires n > 0
  {
    (m + n - 1) / n
  }

  ghost predicate Fair(start: nat, m: nat, n: nat)
    requires n > 0
  {
    forall j :: 0 <= j < n ==> Floor(m, n) <= Count(start, m, n, j) <= Ceil(m, n)
  }

  /** Numbers below x that are congruent to j. */
  function Below(x: nat, n: nat, j: nat): nat
    requires j < n
  {
    (x + n - 1 - j) / n
  }

  lemma DivStep(a: nat, n: nat)
    requires n > 0
    ensures (a + 1) / n == a / n + if (a + 1) % n == 0 then 1 else 0
  {
    var q, r := a / n, a % n;
    assert a == q * n + r;
    if r + 1 == n {
      assert a + 1 == (q + 1) * n;
      DivUnique(a + 1, n, q + 1, 0);
    } else {
      DivUnique(a + 1, n, q, r + 1);
    }
  }

  lemma MulAtLeast(k: int, n: nat)
    requires k >= 1
    ensures k * n >= n
  {
    assert k * n == n + (k - 1) * n;
  }

  lemma DivUnique(a: nat, n: nat, q: nat, r: nat)
    requires n > 0 && r < n && a == q * n + r
    ensures a / n == q && a % n == r
  {
    var p, t := a / n, a % n;
    assert a == p * n + t;
    assert (q - p) * n == t - r;
    assert (p - q) * n == r - t;
    if q > p {
      MulAtLeast(q - p, n);
    } else if q < p {
      MulAtLeast(p - q, n);
    }
  }

  lemma Congruent(x: nat, n: nat, j: nat)
    requires j < n
    ensures (x + n - j) % n == 0 <==> x % n == j
  {
    var q, r := x / n, x % n;
    assert x == q * n + r;
    if r >= j {
      assert x + n - j == (q + 1) * n + (r - j);
      DivUnique(x + n - j, n, q + 1, r - j);
    } else {
      assert x + n - j == q * n + (r + n - j);
      DivUnique(x + n - j, n, q, r + n - j);
    }
  }

  /** Without wrap-around, a window's count is a difference of two closed forms. */
  lemma {:induction false} CountClosed(start: nat, m: nat, n: nat, j: nat)
    requires j < n && (start + m <= WRAP || WRAP % n == 0)
    ensures Count(start, m, n, j) == Below(start + m, n, j) - Below(start, n, j)
  {
    if m == 0 {
    } else {
      CountClosed(start, m - 1, n, j);
      var x := start + m - 1;
      PickIsMod(start, m - 1, n);
      DivStep(x + n - 1 - j, n);
      Congruent(x, n, j);
    }
  }

  lemma PickIsMod(start: nat, k: nat, n: nat)
    requires n > 0 && (start + k < WRAP || WRAP % n == 0)
    ensures Pick(start, k, n) == (start + k) % n
  {
    var x := start + k;
    if x >= WRAP {
      var w := WRAP / n;
      var q, r := x / WRAP, x % WRAP;
      var p, t := r / n, r % n;
      assert WRAP == w * n by { assert WRAP == w * n + WRAP % n; }
      assert x == q * WRAP + r && r == p * n + t;
      assert q * (w * n) == (q * w) * n;
      assert x == (q * w + p) * n + t;
      DivUnique(x, n, q * w + p, t);
    }
  }

  lemma Distribute(a: nat, b: nat, n: nat)
    ensures (a + b) * n == a * n + b * n
  {
  }

  lemma AddDiv(a: nat, m: nat, n: nat)
    requires n > 0
    ensures (a + m) / n == a / n + m / n + if a % n + m % n >= n then 1 else 0
  {
    var q, r, p, s := a / n, a % n, m / n, m % n;
    assert a == q * n + r && m == p * n + s;
    Distribute(q, p, n);
    if r + s < n {
      DivUnique(a + m, n, q + p, r + s);
    } else {
      Distribute(q + p, 1, n);
      DivUnique(a + m, n, q + p + 1, r + s - n);
    }
  }

  lemma WindowBounds(a: nat, m: nat, n: nat)
    requires n > 0
    ensures Floor(m, n) <= (a + m) / n - a / n <= Ceil(m, n)
  {
    AddDiv(a, m, n);
    AddDiv(n - 1, m, n);
    DivUnique(n - 1, n, 0, n - 1);
  }

  /** Any window that does not cross the wrap gives each server its floor or ceiling share. */
  lemma FairWithoutWrap(start: nat, m: nat, n: nat)
    requires n > 0 && (start + m <= WRAP || WRAP % n == 0)
    ensures Fair(start, m, n)
  {
    forall j | 0 <= j < n
      ensures Floor(m, n) <= Count(start, m, n, j) <= Ceil(m, n)
    {
      CountClosed(start, m, n, j);
      WindowBounds(start + n - 1 - j, m, n);
    }
  }

  lemma {:induction false} CountHits(start: nat, m: nat, n: nat, j: nat, hits: set<nat>)
    requires n > 0 && forall k :: k in hits ==> k < m && Pick(start, k, n) == j
    ensures Count(start, m, n, j) >= |hits|
    decreases m
  {
    if m > 0 {
      var rest := hits - {m - 1};
      CountHits(start, m - 1, n, j, rest);
      assert hits == rest + (if m - 1 in hits then {m - 1} else {});
    } else {
      assert hits == {} by {
        if k :| k in hits {
          assert false;
        }
      }
    }
  }

  /** The window of n selections that starts at the last counter value serves one server twice. */
  lemma UnfairAcrossWrap(n: nat)
    requires n > 0 && WRAP % n != 0
    ensures !Fair(WRAP - 1, n, n)
  {
    var w, r := WRAP / n, WRAP % n;
    assert WRAP == w * n + r;
    DivUnique(WRAP - 1, n, w, r - 1);
    assert Pick(WRAP - 1, 0, n) == r - 1;
    assert Pick(WRAP - 1, r, n) == r - 1 by {
      DivUnique(WRAP - 1 + r, WRAP, 1, r - 1);
      DivUnique(r - 1, n, 0, r - 1);
    }
    CountHits(WRAP - 1, n, n, r - 1, {0, r});
    DivUnique(n + n - 1, n, 1, n - 1);
  }

  /** Round robin is fair on every window exactly if the number of servers divides 2^32. */
  lemma FairIff(n: nat)
    requires n > 0
    ensures (forall start, m :: 0 <= start < WRAP && 0 <= m ==> Fair(start, m, n)) <==> 0x1_0000_0000 % n == 0
  {
    if WRAP % n == 0 {
      forall start, m | 0 <= start < WRAP && 0 <= m
        ensures Fair(start, m, n)
      {
        FairWithoutWrap(start, m, n);
      }
    } else {
      UnfairAcrossWrap(n);
    }
  }

  lemma StepMod(x: nat)
    ensures (x % WRAP + 1) % WRAP == (x + 1) % WRAP && (x % WRAP) % WRAP == x % WRAP
  {
  }

  /** Adding one and taking it off again, in uint32. */
  lemma Decrement(x: nat)
    requires x < WRAP
    ensures ((x + 1) % WRAP + WRAP - 1) % WRAP == x && x % WRAP == x
  {
    if x + 1 == WRAP {
      assert (x + 1) % WRAP == 0;
    } else {
      assert (x + 1) % WRAP == x + 1;
      assert (x + WRAP) % WRAP == x;
    }
  }

  /** RoundRobinBalancer.next, and the selection it makes. */
  class RoundRobin {
    var next: nat

    ghost predicate Valid()
      reads this
    {
      next < WRAP
    }

    constructor ()
      ensures Valid() && next == 0
    {
      next := 0;
    }

    /** AddUint32(&next, 1) - 1 modulo the number of available servers. */
    method Select(n: nat) returns (slot: nat)
      requires Valid() && n > 0
      modifies this
      ensures Valid() && next == (old(next) + 1) % WRAP
      ensures slot < n && slot == Pick(old(next), 0, n)
    {
      Decrement(next);
      next := (next + 1) % WRAP;
      var index := (next + WRAP - 1) % WRAP;
      slot := index % n;
    }

    /** m selections in a row over an unchanged set of n servers: each gets its share. */
    method SelectMany(n: nat, m: nat) returns (slots: seq<nat>)
      requires Valid() && n > 0
      modifies this
      ensures Valid() && |slots| == m && next == (old(next) + m) % WRAP
      ensures forall k :: 0 <= k < m ==> slots[k] == Pick(old(next), k, n)
      ensures old(next) + m <= WRAP || WRAP % n == 0 ==>
                forall j :: 0 <= j < n ==> Floor(m, n) <= multiset(slots)[j] <= Ceil(m, n)
    {
      slots := [];
      for k := 0 to m
        invariant Valid() && |slots| == k && next == (old(next) + k) % WRAP
        invariant forall i :: 0 <= i < k ==> slots[i] == Pick(old(next), i, n)
      {
        StepMod(old(next) + k);
        var slot := Select(n);
        slots := slots + [slot];
      }
      Occurrences(old(next), n, slots);
      if old(next) + m <= WRAP || WRAP % n == 0 {
        FairWithoutWrap(old(next), m, n);
      }
    }
  }

  /** Count counts the slots that were really picked. */
  lemma {:induction false} Occurrences(start: nat, n: nat, slots: seq<nat>)
    requires n > 0 && forall k :: 0 <= k < |slots| ==> slots[k] == Pick(start, k, n)
    ensures forall j :: 0 <= j < n ==> multiset(slots)[j] == Count(start, |slots|, n, j)
  {
    if slots == [] {
    } else {
      var m := |slots| - 1;
      Occurrences(start, n, slots[..m]);
      assert slots == slots[..m] + [slots[m]];
    }
  }

  // --- stream IDs ---

  const LAST_ID: nat := 65530
  const UDP_ID: nat := 0xFFFF

  /** One allocation: the counter goes up, and starts again at 1 behind LAST_ID. */
  function NextId(counter: nat): nat {
    if counter + 1 > LAST_ID then 1 else counter + 1
  }

  function IdAt(counter: nat, k: nat): nat
    decreases k
  {
    if k == 0 then NextId(counter) else IdAt(NextId(counter), k - 1)
  }

  lemma {:induction false} IdClosed(counter: nat, k: nat)
    requires counter <= LAST_ID
    ensures IdAt(counter, k) == (counter + k) % LAST_ID + 1
    decreases k
  {
    if k == 0 {
    } else {
      IdClosed(NextId(counter), k - 1);
      if counter == LAST_ID {
        SumMod(k, LAST_ID);
      } else {
        assert NextId(counter) + (k - 1) == counter + k;
      }
    }
  }

  /** IDs repeat exactly every LAST_ID allocations, and none is 0 or the ID of the UDP stream. */
  lemma IdsDistinct(counter: nat, i: nat, j: nat)
    requires counter <= 65530 && i <= j
    ensures IdAt(counter, i) == IdAt(counter, j) <==> (j - i) % 65530 == 0
    ensures 1 <= IdAt(counter, i) <= 65530 && IdAt(counter, i) != UDP_ID
  {
    IdClosed(counter, i);
    IdClosed(counter, j);
    SumMod(counter + i, j - i);
  }

  /** Adding d keeps the remainder exactly if LAST_ID divides d. */
  lemma SumMod(a: nat, d: nat)
    ensures (a + d) % LAST_ID == a % LAST_ID <==> d % LAST_ID == 0
  {
    var q, r, p, t := a / LAST_ID, a % LAST_ID, d / LAST_ID, d % LAST_ID;
    assert a + d == (q + p) * LAST_ID + (r + t);
    if r + t < LAST_ID {
      DivUnique(a + d, LAST_ID, q + p, r + t);
    } else {
      DivUnique(a + d, LAST_ID, q + p + 1, r + t - LAST_ID);
    }
  }

  /** SessionManager: the counter and the table of sessions. */
  class SessionManager {
    var nextStreamID: nat
    var sessions: map<nat, nat>

    ghost predicate Valid()
      reads this
    {
      nextStreamID <= LAST_ID
    }

    constructor ()
      ensures Valid() && nextStreamID == 0 && sessions == map[]
    {
      nextStreamID, sessions := 0, map[];
    }

    method NewTCPSession(session: nat) returns (id: nat)
      requires Valid()
      modifies this
      ensures Valid() && id == NextId(old(nextStreamID)) && nextStreamID == id
      ensures sessions == old(sessions)[id := session]
    {
      id := nextStreamID + 1;
      nextStreamID := id;
      if id > LAST_ID {
        nextStreamID := 1;
        id := 1;
      }
      sessions := sessions[id := session];
    }
  }
}
