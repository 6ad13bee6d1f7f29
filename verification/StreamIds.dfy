/**
 Stream IDs under concurrent allocation.  NewTCPSession adds to the counter in one atomic step, and
 beyond the last ID it resets the counter in a second one, so other allocations may come in between.
 */
module StreamIds {
  import opened Rotation

  /** One allocation; each has an identity of its own. */
  type Call = nat

  datatype State = State(
    counter: nat,                // nextStreamID
    resetting: set<Call>,        // those that went beyond the last ID and have not reset the counter yet
    given: map<Call, nat>)

  datatype Step = Add(c: Call) | Reset(c: Call)

  predicate Enabled(s: State, step: Step) {
    match step
    case Add(c) => c !in s.given && c !in s.resetting
    case Reset(c) => c in s.resetting
  }

  function Next(s: State, step: Step): State
    requires Enabled(s, step)
  {
    match step
    case Add(c) =>
      var id := s.counter + 1;
      if id > LAST_ID then s.(counter := id, resetting := s.resetting + {c})
      else s.(counter := id, given := s.given[c := id])
    case Reset(c) => State(1, s.resetting - {c}, s.given[c := 1])
  }

  ghost predicate Run(steps: seq<Step>, states: seq<State>) {
    && |states| == |steps| + 1
    && states[0].counter <= LAST_ID && states[0].resetting == {} && states[0].given == map[]
    && forall i :: 0 <= i < |steps| ==> Enabled(states[i], steps[i]) && states[i + 1] == Next(states[i], steps[i])
  }

  ghost predicate Distinct(s: State) {
    forall c, d :: c in s.given && d in s.given && c != d ==> s.given[c] != s.given[d]
  }

  /** An allocation begins while another one has still to reset the counter. */
  ghost predicate Meets(states: seq<State>, steps: seq<Step>, i: nat)
    requires i < |steps| && i < |states|
  {
    steps[i].Add? && states[i].resetting != {}
  }

  // --- without such a meeting ---

  /**
   The IDs given are those behind `first`, up to the last and then from 1 on; at most one call is
   resetting, and then the counter stands just behind the last ID.
   */
  ghost predicate Orderly(s: State, first: nat) {
    && first <= LAST_ID && s.resetting !! s.given.Keys
    && (s.resetting == {} ==> s.counter <= LAST_ID)
    && (s.resetting != {} ==> s.counter == LAST_ID + 1 && |s.resetting| == 1)
    && (Straight(s, first) || Wrapped(s, first))
  }

  ghost predicate Straight(s: State, first: nat) {
    && |s.given| + first == (if s.counter > LAST_ID then LAST_ID else s.counter)
    && forall c :: c in s.given ==> first < s.given[c] <= s.counter && s.given[c] <= LAST_ID
  }

  ghost predicate Wrapped(s: State, first: nat) {
    && |s.given| + first == (if s.counter > LAST_ID then LAST_ID else s.counter) + LAST_ID
    && forall c :: c in s.given ==> first < s.given[c] <= LAST_ID || 1 <= s.given[c] <= s.counter
  }

  lemma OrderlyNext(s: State, step: Step, first: nat)
    requires Orderly(s, first) && Distinct(s) && Enabled(s, step) && (step.Add? ==> s.resetting == {})
    requires |s.given| < LAST_ID
    ensures Orderly(Next(s, step), first) && Distinct(Next(s, step))
  {
    var s' := Next(s, step);
    if step.Reset? {
      assert s.resetting == {step.c} by { OnlyOne(s.resetting, step.c); }
      assert s'.resetting == {};
      assert |s'.given| == |s.given| + 1;
    } else if s.counter == LAST_ID {
      assert s'.resetting == {step.c};
    } else {
      assert |s'.given| == |s.given| + 1;
    }
  }

  lemma OnlyOne(s: set<Call>, c: Call)
    requires c in s && |s| == 1
    ensures s == {c}
  {
    assert |s - {c}| == 0;
  }

  lemma {:induction false} StaysOrderly(steps: seq<Step>, states: seq<State>, n: nat)
    requires Run(steps, states) && n < |states| && |states[n].given| <= LAST_ID
    requires forall i :: 0 <= i < n ==> !Meets(states, steps, i)
    ensures Orderly(states[n], states[0].counter) && Distinct(states[n])
  {
    if n == 0 {
    } else {
      assert !Meets(states, steps, n - 1);
      GivenGrows(states[n - 1], steps[n - 1]);
      StaysOrderly(steps, states, n - 1);
      if |states[n - 1].given| < LAST_ID {
        OrderlyNext(states[n - 1], steps[n - 1], states[0].counter);
      } else {
        FullNext(states[n - 1], steps[n - 1], states[0].counter);
      }
    }
  }

  lemma GivenGrows(s: State, step: Step)
    requires Enabled(s, step)
    ensures |s.given| <= |Next(s, step).given|
    ensures forall c :: c in s.given && !(step.Reset? && step.c == c) ==>
              c in Next(s, step).given && Next(s, step).given[c] == s.given[c]
  {
    var s' := Next(s, step);
    assert s.given.Keys <= s'.given.Keys;
    SubsetSize(s.given.Keys, s'.given.Keys);
  }

  lemma SubsetSize(a: set<Call>, b: set<Call>)
    requires a <= b
    ensures |a| <= |b|
  {
    assert |b| == |a| + |b - a| by { assert b == a + (b - a); }
  }

  /** After LAST_ID allocations an orderly run can only go beyond the last ID, which gives none yet. */
  lemma FullNext(s: State, step: Step, first: nat)
    requires Orderly(s, first) && Distinct(s) && Enabled(s, step) && (step.Add? ==> s.resetting == {})
    requires |s.given| == LAST_ID && |Next(s, step).given| <= LAST_ID
    ensures Orderly(Next(s, step), first) && Distinct(Next(s, step))
  {
    var s' := Next(s, step);
    assert step.c in s'.given ==> |s'.given.Keys| > |s.given.Keys| by {
      assert step.c in s'.given ==> s'.given.Keys == s.given.Keys + {step.c};
    }
    assert s'.resetting == {step.c};
  }

  // --- with one ---

  /** A call that resets the counter gets ID 1. */
  lemma {:induction false} ResetGetsOne(steps: seq<Step>, states: seq<State>, i: nat, n: nat, c: Call)
    requires Run(steps, states) && i <= n < |states| && c !in states[n].resetting
    requires c in states[i].resetting || (c in states[i].given && c !in states[i].resetting && states[i].given[c] == 1)
    ensures c in states[n].given && states[n].given[c] == 1
    decreases n - i
  {
    if i == n {
    } else {
      ResetGetsOne(steps, states, i + 1, n, c);
    }
  }

  /**
   With no call underway, at most LAST_ID allocations have got pairwise different IDs if and only if
   none of them began while another one had still to reset the counter.
   */
  lemma DistinctIff(steps: seq<Step>, states: seq<State>, n: nat)
    requires Run(steps, states) && n < |states| && states[n].resetting == {} && |states[n].given| <= LAST_ID
    ensures Distinct(states[n]) <==> forall i :: 0 <= i < n ==> !Meets(states, steps, i)
  {
    if i :| 0 <= i < n && Meets(states, steps, i) {
      var j := FirstMeeting(steps, states, i);
      GivenUpTo(steps, states, j, n);
      StaysOrderly(steps, states, j);
      var c, d :| c in states[j].resetting && d == steps[j].c;
      assert d in states[j + 1].resetting && c in states[j + 1].resetting && c != d;
      ResetGetsOne(steps, states, j + 1, n, c);
      ResetGetsOne(steps, states, j + 1, n, d);
    } else {
      StaysOrderly(steps, states, n);
    }
  }

  lemma {:induction false} FirstMeeting(steps: seq<Step>, states: seq<State>, i: nat) returns (j: nat)
    requires Run(steps, states) && i < |steps| && Meets(states, steps, i)
    ensures j <= i && Meets(states, steps, j) && forall k :: 0 <= k < j ==> !Meets(states, steps, k)
  {
    if k :| 0 <= k < i && Meets(states, steps, k) {
      j := FirstMeeting(steps, states, k);
    } else {
      j := i;
    }
  }

  lemma {:induction false} GivenUpTo(steps: seq<Step>, states: seq<State>, j: nat, n: nat)
    requires Run(steps, states) && j <= n < |states|
    ensures |states[j].given| <= |states[n].given|
    decreases n - j
  {
    if j == n {
    } else {
      GivenGrows(states[j], steps[j]);
      GivenUpTo(steps, states, j + 1, n);
    }
  }

  /** Two calls at once behind the last ID: both reset the counter, and both get ID 1. */
  lemma TwoGetOne()
    ensures exists steps: seq<Step>, states: seq<State> ::
              && Run(steps, states) && |states| == 5 && states[4] == State(1, {}, map[0 := 1, 1 := 1])
  {
    var steps: seq<Step>, states: seq<State>;
    var s0 := State(LAST_ID, {}, map[]);
    var s1 := State(LAST_ID + 1, {0}, map[]);
    var s2 := State(LAST_ID + 2, {0, 1}, map[]);
    var s3 := State(1, {1}, map[0 := 1]);
    var s4 := State(1, {}, map[0 := 1, 1 := 1]);
    assert Next(s0, Add(0)) == s1 && Next(s1, Add(1)) == s2;
    assert Next(s2, Reset(0)) == s3 && Next(s3, Reset(1)) == s4;
    steps := [Add(0), Add(1), Reset(0), Reset(1)];
    states := [s0, s1, s2, s3, s4];
    assert Run(steps, states);
  }
}
