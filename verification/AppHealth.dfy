/**
 Health checks of AppServer.  A round of checks collects instances under one lock, measures without
 any, and stores the results by server ID under a second lock, when a server may have been stopped,
 restarted or replaced.  Which steps end an instance, and hence when a stored result belongs to the
 instance that the server has, is stated exactly.
 */
module AppHealth {
  import opened Wrappers
  import opened AppServer
  import opened AppRuns
  import opened AppEffects
  import P = AppPublish

  /** The step ends the instance: its server is deleted, restarted with a new profile, or switched off. */
  ghost predicate Ends(s: State, step: Step, x: Inst)
    requires Enabled(s, step)
  {
    x in s.store.live &&
    var r := s.store.live[x];
    match step
    case Delete(id) => id in s.store.config && s.store.config[id] == r
    case Update(id, _, _) => id in s.store.config && s.store.config[id] == r
    case Apply(t, _) => s.pending[t] == (r, false)
    case _ => false
  }

  /** The object still has the instance exactly if the instance is live, and nobody else has it. */
  lemma KeptIff(s: Store, s': Store, x: Inst, r: Ref)
    requires Sound(s) && Sound(s') && x in s.live && s.live[x] == r
    requires OthersSame(s, s', r) && s'.azone == s.azone && s'.config == s.config
    requires r in s'.objs
    ensures x in s'.live <==> s'.objs[r].instance == Some(x)
    ensures x in s'.live ==> s'.live[x] == r
  {
    assert InConfig(s, r) && InConfig(s', r);
    if x in s'.live {
      var q := s'.live[x];
      assert InConfig(s, q);
      assert q != r ==> Same(s, s', q);
    }
  }

  /** An instance of another server is not touched. */
  lemma KeptOther(s: Store, s': Store, x: Inst, r: Ref)
    requires Sound(s) && Sound(s') && x in s.live && s.live[x] != r && OthersSame(s, s', r)
    ensures x in s'.live && s'.live[x] == s.live[x]
  {
    assert InConfig(s, s.live[x]);
    assert Same(s, s', s.live[x]);
  }

  lemma UpdateEnds(s: Store, id: Id, p: ProfileRef, v: Visit, x: Inst)
    requires Fine(s) && p !in s.profiles && ValidVisit(s, v) && x in s.live
    ensures var s' := UpdateServer(s, id, p, v);
            && (x in s'.live <==> !(id in s.config && s.config[id] == s.live[x]))
            && (x in s'.live ==> s'.live[x] == s.live[x])
  {
    if id in s.config {
      UpdateEffect(s, id, p, v);
      UpdateFine(s, id, p, v);
      UpdateKeeps(s, id, p, v);
      var s', r := UpdateServer(s, id, p, v), s.config[id];
      hide UpdateServer;
      if r == s.live[x] {
        assert InConfig(s, r) && s.objs[r].instance == Some(x);
        StartsNew(v, r, x, s.created);
        KeptIff(s, s', x, r);
      } else {
        KeptOther(s, s', x, r);
      }
    }
  }

  lemma UpdateKeeps(s: Store, id: Id, p: ProfileRef, v: Visit)
    requires Fine(s) && id in s.config && p !in s.profiles && ValidVisit(s, v)
    ensures UpdateServer(s, id, p, v).config == s.config && UpdateServer(s, id, p, v).azone == s.azone
  {
    var r := s.config[id];
    assert InConfig(s, r);
    Exchanged(s, r, p);
    var s2 := CloseOne(Reprofile(s, r, p), r);
    SameVisit(s, s2, v);
    ManageSettles(s2, v);
  }

  /** A start brings a new instance or none. */
  lemma {:induction false} OutcomeIn(order: seq<Ref>, outs: seq<Outcome>, r: Ref)
    requires |order| == |outs| && r in order
    ensures OutcomeOf(order, outs, r) in outs
    decreases |order|
  {
    if order[0] == r {
    } else {
      OutcomeIn(order[1..], outs[1..], r);
    }
  }

  lemma StartsNew(v: Visit, r: Ref, x: Inst, created: set<Inst>)
    requires |v.starts| == |v.outs| && NewInstances(created, v.outs) && x in created
    ensures r in v.starts && OutcomeOf(v.starts, v.outs, r).Starts? ==> OutcomeOf(v.starts, v.outs, r).inst != x
  {
    if r in v.starts {
      OutcomeIn(v.starts, v.outs, r);
    }
  }

  lemma ApplyEnds(s: Store, r: Ref, active: bool, v: Visit, x: Inst)
    requires Fine(s) && r in s.azone && ValidVisit(s, v) && x in s.live
    ensures var s' := ApplyActive(s, r, active, v);
            && (x in s'.live <==> !(r == s.live[x] && !active))
            && (x in s'.live ==> s'.live[x] == s.live[x])
  {
    assert InConfig(s, s.live[x]);
    if Active(s, r) != active {
      ApplyFine(s, r, active, v);
      ApplyKeeps(s, r, active, v);
      var s' := ApplyActive(s, r, active, v);
      if InConfig(s, r) {
        SwitchEffect(s, r, active, v);
        hide ApplyActive;
        if r == s.live[x] {
          KeptIff(s, s', x, r);
        } else {
          KeptOther(s, s', x, r);
        }
      } else {
        hide ApplyActive;
        KeptOther(s, s', x, r);
      }
    }
  }

  lemma ApplyKeeps(s: Store, r: Ref, active: bool, v: Visit)
    requires Fine(s) && r in s.azone && ValidVisit(s, v)
    ensures var s' := ApplyActive(s, r, active, v);
            s'.config == s.config && s'.azone == s.azone && (!InConfig(s, r) ==> OthersSame(s, s', r))
  {
    var s1 := SetActive(s, r, active);
    SetActiveSound(s, r, active);
    SameVisit(s, s1, v);
    ManageSettles(s1, v);
    if !InConfig(s, r) && Active(s, r) != active {
      assert OthersSame(s, s1, r);
      forall q | InConfig(s1, q) && Ok(s1, q)
        ensures Same(s1, Manage(s1, v), q)
      {
        ManageOne(s1, q, v);
      }
      hide Manage;
      SameTrans(s, s1, Manage(s1, v), r);
    }
  }

  lemma DeleteEnds(s: Store, id: Id, x: Inst)
    requires Fine(s) && x in s.live
    ensures var s' := DeleteServer(s, id);
            && (x in s'.live <==> !(id in s.config && s.config[id] == s.live[x]))
            && (x in s'.live ==> s'.live[x] == s.live[x])
  {
    if id in s.config {
      assert InConfig(s, s.config[id]);
    }
  }

  /** An instance lives on, for the same server, through exactly the steps that do not end it. */
  lemma LiveNext(s: State, step: Step, x: Inst)
    requires Inv(s) && Enabled(s, step) && x in s.store.live
    ensures x in Next(s, step).store.live <==> !Ends(s, step, x)
    ensures x in Next(s, step).store.live ==> Next(s, step).store.live[x] == s.store.live[x]
  {
    assert Fine(s.store);
    hide Fine;
    hide Manage;
    match step {
      case Update(id, p, v) => UpdateEnds(s.store, id, p, v, x);
      case Apply(t, v) => ApplyEnds(s.store, s.pending[t].0, s.pending[t].1, v, x);
      case Delete(id) => DeleteEnds(s.store, id, x);
      case _ =>
    }
  }

  // --- an instance that has ended does not come back ---

  lemma {:induction false} StopAllLive(s: Store, order: seq<Ref>, x: Inst)
    ensures x in StopAll(s, order).live ==> x in s.live
    ensures StopAll(s, order).created == s.created
    decreases |order|
  {
    if order == [] {
    } else {
      StopAllLive(StopOne(s, order[0]), order[1..], x);
    }
  }

  lemma {:induction false} StartAllLive(s: Store, order: seq<Ref>, outs: seq<Outcome>, x: Inst)
    requires |order| == |outs| && forall i :: 0 <= i < |outs| && !outs[i].CreateFails? ==> outs[i].inst != x
    ensures x in StartAll(s, order, outs).live ==> x in s.live
    ensures s.created <= StartAll(s, order, outs).created
    decreases |order|
  {
    if order == [] {
    } else {
      StartAllLive(StartOne(s, order[0], outs[0]), order[1..], outs[1..], x);
    }
  }

  lemma ManageLive(s: Store, v: Visit, x: Inst)
    requires |v.starts| == |v.outs| && NewInstances(s.created, v.outs) && x in s.created
    ensures x in Manage(s, v).live ==> x in s.live
    ensures x in Manage(s, v).created
  {
    StopAllLive(s, v.stops, x);
    StartAllLive(StopAll(s, v.stops), v.starts, v.outs, x);
  }

  lemma UpdateNotAgain(s: Store, id: Id, p: ProfileRef, v: Visit, x: Inst)
    requires |v.starts| == |v.outs| && NewInstances(s.created, v.outs) && x in s.created
    ensures var s' := UpdateServer(s, id, p, v); x in s'.created && (x in s'.live ==> x in s.live)
  {
    hide Manage;
    if id in s.config && Known(s, s.config[id]) {
      ManageLive(CloseOne(Reprofile(s, s.config[id], p), s.config[id]), v, x);
    }
  }

  lemma ApplyNotAgain(s: Store, r: Ref, active: bool, v: Visit, x: Inst)
    requires |v.starts| == |v.outs| && NewInstances(s.created, v.outs) && x in s.created
    ensures var s' := ApplyActive(s, r, active, v); x in s'.created && (x in s'.live ==> x in s.live)
  {
    hide Manage;
    if Known(s, r) {
      ManageLive(SetActive(s, r, active), v, x);
    }
  }

  /** Whatever was created once stays so, and is not started a second time. */
  lemma NotAgain(s: State, step: Step, x: Inst)
    requires Enabled(s, step) && x in s.store.created
    ensures x in Next(s, step).store.created
    ensures x in Next(s, step).store.live ==> x in s.store.live
  {
    hide Manage;
    hide UpdateServer;
    hide ApplyActive;
    hide NewInstances;
    match step {
      case Update(id, p, v) => UpdateNotAgain(s.store, id, p, v, x);
      case Apply(t, v) => ApplyNotAgain(s.store, s.pending[t].0, s.pending[t].1, v, x);
      case _ =>
    }
  }

  /** No step of a run from i up to n ends the instance. */
  ghost predicate Spared(steps: seq<Step>, states: seq<State>, i: nat, n: nat, x: Inst)
    requires Run(steps, states) && i <= n < |states|
  {
    forall k :: i <= k < n ==> !Ends(states[k], steps[k], x)
  }

  lemma {:induction false} LiveIff(steps: seq<Step>, states: seq<State>, i: nat, n: nat, x: Inst)
    requires Run(steps, states) && i <= n < |states| && x in states[i].store.live
    ensures x in states[n].store.created
    ensures x in states[n].store.live <==> Spared(steps, states, i, n, x)
    ensures x in states[n].store.live ==> states[n].store.live[x] == states[i].store.live[x]
    decreases n - i
  {
    hide Next;
    hide Enabled;
    hide Ends;
    if i == n {
      Safety(steps, states, n);
    } else {
      hide Inv;
      LiveIff(steps, states, i, n - 1, x);
      Safety(steps, states, n - 1);
      NotAgain(states[n - 1], steps[n - 1], x);
      if x in states[n - 1].store.live {
        LiveNext(states[n - 1], steps[n - 1], x);
      }
    }
  }

  lemma {:induction false} IdStays(steps: seq<Step>, states: seq<State>, i: nat, n: nat, r: Ref)
    requires Run(steps, states) && i <= n < |states| && r in states[i].store.azone
    ensures r in states[n].store.azone && states[n].store.azone[r] == states[i].store.azone[r]
    decreases n - i
  {
    hide Next;
    hide Enabled;
    if i == n {
    } else {
      IdStays(steps, states, i, n - 1, r);
      StoreAfter(steps, states, n - 1);
    }
  }

  // --- a round of checks ---

  /** One call of runHealthChecks: its two lock sections are steps i and j. */
  ghost predicate Round(steps: seq<Step>, i: nat, j: nat) {
    && i < j < |steps| && steps[i].BeginCheck? && steps[j].EndCheck? && steps[j].t == steps[i].t
    && forall k :: i < k < j ==> !(steps[k].EndCheck? && steps[k].t == steps[i].t)
  }

  lemma ChecksNext(s: State, step: Step, t: Tid)
    requires Enabled(s, step)
    ensures step == BeginCheck(t) ==> t in Next(s, step).checks && Next(s, step).checks[t] == Running(s.store)
    ensures t in s.checks && !(step.EndCheck? && step.t == t) ==>
              t in Next(s, step).checks && Next(s, step).checks[t] == s.checks[t]
  {
    hide Manage;
    hide UpdateServer;
    hide ApplyActive;
    hide Copied;
    hide Measured;
    hide MeasuredOne;
    hide DeleteServer;
    hide AddServer;
    hide Running;
  }

  lemma {:induction false} ChecksKept(steps: seq<Step>, states: seq<State>, i: nat, n: nat)
    requires Run(steps, states) && i < n < |states| && steps[i].BeginCheck?
    requires forall k :: i < k < n ==> !(steps[k].EndCheck? && steps[k].t == steps[i].t)
    ensures steps[i].t in states[n].checks && states[n].checks[steps[i].t] == Running(states[i].store)
    decreases n - i
  {
    hide Next;
    hide Running;
    ChecksNext(states[n - 1], steps[n - 1], steps[i].t);
    if n == i + 1 {
    } else {
      ChecksKept(steps, states, i, n - 1);
    }
  }

  lemma RunningIs(s: Store, id: Id)
    requires Fine(s) && id in Running(s)
    ensures Running(s)[id] in s.live && id in s.config && s.live[Running(s)[id]] == s.config[id]
    ensures s.config[id] in s.azone && s.azone[s.config[id]] == id && Running(s)[id] in s.created
  {
    assert InConfig(s, s.config[id]);
  }

  /** In an orderly store a server has the instance exactly if the instance is live and is the server's. */
  lemma HasIff(s: Store, id: Id, r: Ref, x: Inst)
    requires Fine(s) && r in s.azone && s.azone[r] == id && (x in s.live ==> s.live[x] == r) && id in s.config
    ensures s.config[id] in s.objs && (s.objs[s.config[id]].instance == Some(x) <==> x in s.live)
  {
    assert InConfig(s, s.config[id]);
  }

  lemma MeasuredIs(s: Store, results: map<Id, (Health, int)>, id: Id)
    requires Fine(s) && id in s.config && id in results
    ensures var s', r := Measured(s, results), s.config[id];
            && s'.config == s.config && r in s'.objs && r in s.objs && s'.objs[r].instance == s.objs[r].instance
            && s'.objs[r].health == results[id].0 && s'.objs[r].metrics == results[id].1
  {
    assert InConfig(s, s.config[id]);
  }

  lemma EndCheckIs(s: State, t: Tid, results: map<Id, (Health, int)>)
    ensures Enabled(s, EndCheck(t, results)) <==> t in s.checks && results.Keys == s.checks[t].Keys
    ensures Enabled(s, EndCheck(t, results)) ==> Next(s, EndCheck(t, results)).store == Measured(s.store, results)
  {
  }

  /**
   The result that a round stores for a server was measured on the instance x that the server had
   when the round began.  It is the instance the server has now if and only if no step in between
   deleted, restarted or switched off that server.
   */
  lemma HealthBelongs(steps: seq<Step>, states: seq<State>, i: nat, j: nat, id: Id)
    requires Run(steps, states) && Round(steps, i, j)
    requires id in Running(states[i].store) && id in states[j].store.config
    ensures var x, s, r := Running(states[i].store)[id], states[j + 1].store, states[j].store.config[id];
            && id in s.config && s.config[id] == r && r in s.objs && id in steps[j].results
            && s.objs[r].health == steps[j].results[id].0 && s.objs[r].metrics == steps[j].results[id].1
            && (s.objs[r].instance == Some(x) <==> Spared(steps, states, i, j, x))
  {
    Safety(steps, states, i);
    Safety(steps, states, j);
    assert Fine(states[i].store) && Fine(states[j].store);
    hide Next;
    hide Inv;
    hide Fine;
    hide Spared;
    hide Measured;
    var x, r := Running(states[i].store)[id], states[i].store.config[id];
    RunningIs(states[i].store, id);
    ChecksKept(steps, states, i, j);
    hide Running;
    LiveIff(steps, states, i, j, x);
    IdStays(steps, states, i, j, r);
    HasIff(states[j].store, id, r, x);
    EndCheckIs(states[j], steps[j].t, steps[j].results);
    MeasuredIs(states[j].store, steps[j].results, id);
  }

  lemma BeginCheckIs(s: State, t: Tid)
    requires t !in s.checks
    ensures Enabled(s, BeginCheck(t)) && Next(s, BeginCheck(t)) == s.(checks := s.checks[t := Running(s.store)])
  {
  }

  lemma UpdateIs(s: State, id: Id, p: ProfileRef, v: Visit)
    requires p !in s.store.profiles && ValidVisit(s.store, v)
    ensures Enabled(s, Update(id, p, v)) && Next(s, Update(id, p, v)) == s.(store := UpdateServer(s.store, id, p, v))
  {
  }

  /** A restart gives the server the instance of its own start, which is a new one. */
  lemma Restarted(s: Store, id: Id, p: ProfileRef, v: Visit)
    requires Fine(s) && id in Running(s) && p !in s.profiles && ValidVisit(s, v)
    requires s.config[id] in v.starts && OutcomeOf(v.starts, v.outs, s.config[id]).Starts?
    ensures var s', r := UpdateServer(s, id, p, v), s.config[id];
            && Fine(s') && s'.config == s.config && id in s.config && r in s'.objs
            && s'.objs[r].instance == Some(OutcomeOf(v.starts, v.outs, r).inst) && s'.objs[r].instance != Some(Running(s)[id])
  {
    RunningIs(s, id);
    StartsNew(v, s.config[id], Running(s)[id], s.created);
    UpdateEffect(s, id, p, v);
    UpdateFine(s, id, p, v);
    UpdateKeeps(s, id, p, v);
    hide UpdateServer;
  }

  function AllDown(s: Store): map<Id, (Health, int)> {
    map k | k in Running(s) :: (Down, -1)
  }

  /** The server has this instance, and is said to be down. */
  ghost predicate DownWith(s: Store, id: Id, x: Inst) {
    && id in s.config && s.config[id] in s.objs
    && s.objs[s.config[id]].health == Down && s.objs[s.config[id]].instance == Some(x)
  }

  lemma RestartedDown(s: Store, id: Id, p: ProfileRef, v: Visit)
    requires Fine(s) && id in Running(s) && p !in s.profiles && ValidVisit(s, v)
    requires s.config[id] in v.starts && OutcomeOf(v.starts, v.outs, s.config[id]).Starts?
    ensures var start := OutcomeOf(v.starts, v.outs, s.config[id]);
            DownWith(Measured(UpdateServer(s, id, p, v), AllDown(s)), id, start.inst) && start.inst != Running(s)[id]
  {
    Restarted(s, id, p, v);
    assert |v.starts| == |v.outs| && id in AllDown(s) && AllDown(s)[id].0 == Down;
    hide Fine;
    hide ValidVisit;
    hide UpdateServer;
    hide Measured;
    hide AllDown;
    hide Running;
    MeasuredIs(UpdateServer(s, id, p, v), AllDown(s), id);
  }

  /** A server that is restarted during a round gets the result of its old instance: the new one is down. */
  lemma StaleHealth(s: State, t: Tid, id: Id, p: ProfileRef, v: Visit) returns (s1: State, s2: State, s3: State)
    requires Inv(s) && t !in s.checks && id in Running(s.store) && p !in s.store.profiles && ValidVisit(s.store, v)
    requires s.store.config[id] in v.starts && OutcomeOf(v.starts, v.outs, s.store.config[id]).Starts?
    ensures Enabled(s, BeginCheck(t)) && s1 == Next(s, BeginCheck(t))
    ensures Enabled(s1, Update(id, p, v)) && s2 == Next(s1, Update(id, p, v))
    ensures Enabled(s2, EndCheck(t, AllDown(s.store))) && s3 == Next(s2, EndCheck(t, AllDown(s.store)))
    ensures var start := OutcomeOf(v.starts, v.outs, s.store.config[id]);
            DownWith(s3.store, id, start.inst) && start.inst != Running(s.store)[id]
  {
    RestartedDown(s.store, id, p, v);
    assert AllDown(s.store).Keys == Running(s.store).Keys;
    hide *;
    BeginCheckIs(s, t);
    s1 := Next(s, BeginCheck(t));
    UpdateIs(s1, id, p, v);
    s2 := Next(s1, Update(id, p, v));
    EndCheckIs(s2, t, AllDown(s.store));
    s3 := Next(s2, EndCheck(t, AllDown(s.store)));
  }

  // --- a run in which that happens ---

  const FIRST: Visit := Visit([0], [0], [Starts(5)])
  const SECOND: Visit := Visit([0], [0], [Starts(6)])

  /** One server, started as instance 5. */
  const STARTED: Store :=
    Store(map[0 := Server(0, Some(5), Up, -1)], map[0 := 0], map[0 := Profile(true, 0)], map[0 := 0], map[5 := 0], {5})

  lemma StartedIs()
    ensures ApplyActive(P.ONE, 0, true, FIRST) == STARTED && ValidVisit(P.ONE, FIRST)
    ensures Running(STARTED) == map[0 := 5] && ValidVisit(STARTED, SECOND) && OutcomeOf([0], [Starts(6)], 0) == Starts(6)
  {
    var s1 := SetActive(P.ONE, 0, true);
    assert StopAll(s1, [0]) == StopAll(StopOne(s1, 0), []) == s1;
    assert StartAll(s1, [0], [Starts(5)]) == StartAll(StartOne(s1, 0, Starts(5)), [], []);
  }

  ghost predicate StartsFirst(states: seq<State>) {
    && Run([Add(0, 0, 0), Lookup(0, 0, true), Apply(0, FIRST)], states)
    && states[3].store == STARTED && states[3].checks == map[]
  }

  /** A server is added and switched on. */
  lemma StartedFirst()
    ensures exists states :: StartsFirst(states)
  {
    var s0 := State(EMPTY, map[], map[], map[], map[]);
    P.AddedFirst(s0);
    var s1 := s0.(store := P.ONE);
    P.LookupIs(s1);
    var s2 := s1.(pending := map[0 := (0, true)]);
    StartedIs();
    var s3 := Next(s2, Apply(0, FIRST));
    assert s3.store == STARTED && s3.checks == map[];
    var states := [s0, s1, s2, s3];
    assert StartsFirst(states);
  }

  lemma RoundOfThree(steps: seq<Step>)
    requires |steps| == 6 && steps[3] == BeginCheck(0) && steps[4].Update? && steps[5].EndCheck? && steps[5].t == 0
    ensures Round(steps, 3, 5)
  {
  }

  /** The round has measured instance 5, and what it stores stands for instance 6. */
  lemma StaleHealthReached()
    ensures exists steps: seq<Step>, states: seq<State> ::
              && Run(steps, states) && |steps| == 6 && Round(steps, 3, 5)
              && Running(states[3].store) == map[0 := 5] && DownWith(states[6].store, 0, 6)
  {
    var steps: seq<Step>, states: seq<State>;
    hide Next;
    hide Enabled;
    hide Inv;
    hide ValidVisit;
    hide Running;
    hide ApplyActive;
    StartedFirst();
    states :| StartsFirst(states);
    steps := [Add(0, 0, 0), Lookup(0, 0, true), Apply(0, FIRST)];
    Safety(steps, states, 3);
    StartedIs();
    assert 1 !in STARTED.profiles && STARTED.config[0] == 0 && SECOND.starts == [0] && SECOND.outs == [Starts(6)];
    assert |states| == 4;
    var down := AllDown(STARTED);
    hide *;
    var s4, s5, s6 := StaleHealth(states[3], 0, 0, 1, SECOND);
    P.Extended(steps, states, BeginCheck(0));
    steps, states := steps + [BeginCheck(0)], states + [s4];
    P.Extended(steps, states, Update(0, 1, SECOND));
    steps, states := steps + [Update(0, 1, SECOND)], states + [s5];
    P.Extended(steps, states, EndCheck(0, down));
    steps, states := steps + [EndCheck(0, down)], states + [s6];
    RoundOfThree(steps);
  }
}
