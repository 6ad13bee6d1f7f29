/**
 What the steps of AppServer do to the servers of the A-zone, over every run: which of them are
 there, whom a step concerns and what it leaves of the others, and what becomes of a request to
 switch a server, whose two lock sections other steps may come between.
 */
module AppZone {
  import opened Wrappers
  import opened AppServer
  import opened AppRuns
  import opened AppEffects

  // --- which servers there are ---

  /** A server comes by being loaded or added, and goes by being deleted. */
  lemma ConfigNext(s: State, step: Step, id: Id)
    requires Inv(s) && Enabled(s, step)
    ensures id in Next(s, step).store.config <==>
              || (id in s.store.config && step != Delete(id))
              || (step.Add? && step.id == id)
              || (step.Load? && id in step.loaded.config)
    ensures id in s.store.config && step != Delete(id) ==> Next(s, step).store.config[id] == s.store.config[id]
    ensures step.Add? && step.id == id && id !in s.store.config ==> Next(s, step).store.config[id] == step.r
  {
    assert Fine(s.store) && (step.Apply? ==> s.pending[step.t].0 in s.store.azone);
    hide Manage;
    hide UpdateServer;
    hide ApplyActive;
    hide Copied;
    hide Measured;
    hide Fine;
    match step {
      case Load(loaded, v) => LoadConfig(loaded, v);
      case Update(i, p, v) => UpdateConfig(s.store, i, p, v);
      case Apply(t, v) => ApplyConfig(s.store, s.pending[t].0, s.pending[t].1, v);
      case _ =>
    }
  }

  lemma LoadConfig(loaded: Store, v: Visit)
    requires Loaded(loaded) && ValidVisit(loaded, v)
    ensures Manage(loaded, v).config == loaded.config
  {
    ManageSettles(loaded, v);
  }

  lemma UpdateConfig(s: Store, id: Id, p: ProfileRef, v: Visit)
    requires Fine(s) && p !in s.profiles && ValidVisit(s, v)
    ensures UpdateServer(s, id, p, v).config == s.config && UpdateServer(s, id, p, v).azone == s.azone
  {
    if id in s.config {
      var r := s.config[id];
      assert InConfig(s, r);
      Exchanged(s, r, p);
      var s2 := CloseOne(Reprofile(s, r, p), r);
      SameVisit(s, s2, v);
      ManageSettles(s2, v);
    }
  }

  lemma ApplyConfig(s: Store, r: Ref, active: bool, v: Visit)
    requires Fine(s) && r in s.azone && ValidVisit(s, v)
    ensures ApplyActive(s, r, active, v).config == s.config && ApplyActive(s, r, active, v).azone == s.azone
  {
    SetActiveSound(s, r, active);
    SameVisit(s, SetActive(s, r, active), v);
    ManageSettles(SetActive(s, r, active), v);
  }

  /** A server object stays in configState exactly until its ID is deleted, and never comes back. */
  lemma {:induction false} ServerUntil(steps: seq<Step>, states: seq<State>, i: nat, n: nat, r: Ref)
    requires Run(steps, states) && i <= n < |states| && InConfig(states[i].store, r)
    ensures r in states[n].store.azone && states[n].store.azone[r] == states[i].store.azone[r]
    ensures InConfig(states[n].store, r) <==> forall k :: i <= k < n ==> steps[k] != Delete(states[i].store.azone[r])
    decreases n
  {
    hide Next;
    hide Enabled;
    hide Inv;
    if i == n {
    } else {
      ServerUntil(steps, states, i, n - 1, r);
      Safety(steps, states, n - 1);
      StoreAfter(steps, states, n - 1);
      var id := states[i].store.azone[r];
      ConfigNext(states[n - 1], steps[n - 1], id);
      AddsAnother(states[n - 1], steps[n - 1], r);
    }
  }

  /** A new server is a new object. */
  lemma AddsAnother(s: State, step: Step, r: Ref)
    requires Inv(s) && Enabled(s, step) && r in s.store.azone
    ensures step.Add? ==> step.r != r
    ensures !step.Load?
  {
  }

  // --- whom a step concerns ---

  /** The step may change the server. */
  ghost predicate Concerns(s: State, step: Step, r: Ref)
    requires Enabled(s, step) && InConfig(s.store, r) && Known(s.store, r)
  {
    match step
    case Update(id, _, _) => id == s.store.azone[r]
    case Delete(id) => id == s.store.azone[r]
    case Apply(t, _) => s.pending[t].0 == r && s.pending[t].1 != Active(s.store, r)
    case EndCheck(_, results) => s.store.azone[r] in results
    case CheckOne(id, _) => id == s.store.azone[r]
    case _ => false
  }

  lemma KnownIn(s: Store, r: Ref)
    requires Fine(s) && InConfig(s, r)
    ensures Known(s, r)
  {
  }

  /** The instance that the server has. */
  function Used(o: Server): set<Inst> {
    if o.instance.Some? then {o.instance.value} else {}
  }

  /** What the short sections leave of a server. */
  lemma ShortSections(s: Store, r: Ref)
    requires Fine(s) && InConfig(s, r)
    ensures forall id, q, p :: q !in s.objs && p !in s.profiles ==> Same(s, AddServer(s, id, q, p), r)
    ensures forall id :: id != s.azone[r] ==> Same(s, DeleteServer(s, id), r)
    ensures var s' := DeleteServer(s, s.azone[r]);
            && s'.objs[r] == s.objs[r].(instance := None) && s.azone[r] !in s'.config
            && s'.live.Keys == s.live.Keys - Used(s.objs[r])
    ensures forall results: map<Id, (Health, int)> ::
              var s', id := Measured(s, results), s.azone[r];
              if id in results
              then s'.objs[r] == s.objs[r].(health := results[id].0, metrics := results[id].1) && Active(s', r) == Active(s, r)
              else Same(s, s', r)
    ensures forall id, h ::
              var s' := MeasuredOne(s, id, h);
              if id == s.azone[r] && Active(s, r)
              then s'.objs[r] == s.objs[r].(health := h) && Active(s', r) == Active(s, r)
              else Same(s, s', r)
  {
    assert Active(s, r) <==> s.objs[r].instance.Some?;
  }

  lemma ShortSame(s: State, step: Step, r: Ref)
    requires Fine(s.store) && Enabled(s, step) && InConfig(s.store, r) && Known(s.store, r)
    requires !step.Update? && !step.Apply? && !step.Load? && !step.Copy?
    ensures !Concerns(s, step, r) ==> Same(s.store, Next(s, step).store, r)
  {
    ShortSections(s.store, r);
    hide Fine;
    hide AddServer;
    hide DeleteServer;
    hide Measured;
    hide MeasuredOne;
  }

  /** No step changes a server that it does not concern: profile, flag, instance, health and metrics. */
  lemma OnlyConcerned(s: State, step: Step, r: Ref)
    requires Inv(s) && Enabled(s, step) && InConfig(s.store, r)
    ensures Known(s.store, r)
    ensures !Concerns(s, step, r) ==> Same(s.store, Next(s, step).store, r)
  {
    assert Fine(s.store) && (step.Apply? ==> s.pending[step.t].0 in s.store.azone);
    assert step.Load? ==> s.store.config == map[];
    KnownIn(s.store, r);
    hide Fine;
    hide Inv;
    hide ValidVisit;
    hide Injective;
    hide Manage;
    hide UpdateServer;
    hide ApplyActive;
    hide AddServer;
    hide DeleteServer;
    hide Measured;
    hide MeasuredOne;
    hide Copied;
    match step {
      case Update(id, p, v) =>
        UpdateSame(s.store, id, p, v, r);
      case Apply(t, v) =>
        if !Concerns(s, step, r) {
          ApplySame(s.store, s.pending[t].0, s.pending[t].1, v, r);
        }
      case Copy(t, refs) =>
        CopiedObjs(s.store, refs);
      case Load(loaded, v) =>
        assert false;
      case _ =>
        ShortSame(s, step, r);
    }
  }

  lemma UpdateSame(s: Store, id: Id, p: ProfileRef, v: Visit, q: Ref)
    requires Fine(s) && p !in s.profiles && InConfig(s, q) && ValidVisit(s, v)
    ensures id != s.azone[q] ==> Same(s, UpdateServer(s, id, p, v), q)
  {
    KnownIn(s, q);
    if id in s.config {
      UpdateEffect(s, id, p, v);
      hide UpdateServer;
      assert id != s.azone[q] ==> s.config[id] != q;
    }
  }

  lemma ApplySame(s: Store, r: Ref, active: bool, v: Visit, q: Ref)
    requires Fine(s) && r in s.azone && InConfig(s, q) && ValidVisit(s, v) && (q == r ==> Active(s, r) == active)
    ensures Same(s, ApplyActive(s, r, active, v), q)
  {
    KnownIn(s, q);
    if Active(s, r) != active {
      if InConfig(s, r) {
        SwitchEffect(s, r, active, v);
        assert OthersSame(s, ApplyActive(s, r, active, v), r);
      } else {
        var s1 := SetActive(s, r, active);
        SetActiveSound(s, r, active);
        SameVisit(s, s1, v);
        assert Same(s, s1, q) && Ok(s1, q);
        ManageOne(s1, q, v);
      }
    }
  }

  /** What an update, a deletion, a round of checks and a single check do to the server they concern. */
  lemma ConcernedEffect(s: State, step: Step, r: Ref)
    requires Inv(s) && Enabled(s, step) && InConfig(s.store, r) && !step.Apply?
    ensures Known(s.store, r) && Known(Next(s, step).store, r)
    ensures var o, s' := s.store.objs[r], Next(s, step).store;
            match step {
              case Update(id, p, v) => id == s.store.azone[r] ==>
                s'.objs[r].profile == p && s'.objs[r].metrics == o.metrics &&
                if Active(s.store, r) then StartedFrom(s.store, s', r, v)
                else Turned(s', r, CreateFails) && s'.objs[r].health == o.health
              case Delete(id) => id == s.store.azone[r] ==>
                s'.objs[r] == o.(instance := None) && id !in s'.config && s'.live.Keys == s.store.live.Keys - Used(o)
              case EndCheck(_, results) => s.store.azone[r] in results ==>
                s'.objs[r] == o.(health := results[s.store.azone[r]].0, metrics := results[s.store.azone[r]].1) &&
                Active(s', r) == Active(s.store, r)
              case CheckOne(id, h) => id == s.store.azone[r] ==>
                s'.objs[r] == (if Active(s.store, r) then o.(health := h) else o) && Active(s', r) == Active(s.store, r)
              case _ => true
            }
  {
    assert Fine(s.store);
    ConcernedKnown(s, step, r);
    ShortSections(s.store, r);
    hide Manage;
    hide UpdateServer;
    hide ApplyActive;
    hide AddServer;
    hide DeleteServer;
    hide Measured;
    hide MeasuredOne;
    if step.Update? && step.id == s.store.azone[r] {
      UpdateEffect(s.store, step.id, step.p, step.v);
      UpdateMetrics(s.store, step.id, step.p, step.v);
    }
  }

  lemma ConcernedKnown(s: State, step: Step, r: Ref)
    requires Inv(s) && Enabled(s, step) && InConfig(s.store, r)
    ensures Known(s.store, r) && Known(Next(s, step).store, r)
  {
    assert Fine(s.store);
    StoreNext(s, step);
    assert r in Next(s, step).store.azone;
  }

  lemma UpdateMetrics(s: Store, id: Id, p: ProfileRef, v: Visit)
    requires Fine(s) && id in s.config && p !in s.profiles && ValidVisit(s, v)
    ensures var s', r := UpdateServer(s, id, p, v), s.config[id];
            r in s'.objs && r in s.objs && s'.objs[r].metrics == s.objs[r].metrics
  {
    var r := s.config[id];
    assert InConfig(s, r);
    Exchanged(s, r, p);
    var s2 := CloseOne(Reprofile(s, r, p), r);
    SameVisit(s, s2, v);
    ManageSettles(s2, v);
  }

  /** A server that a step brings: an added one is inactive, a loaded one is started if its file says so. */
  lemma ArrivalEffect(s: State, step: Step, r: Ref)
    requires Inv(s) && Enabled(s, step) && !InConfig(s.store, r) && InConfig(Next(s, step).store, r)
    ensures step.Add? || step.Load?
    ensures step.Add? ==> r == step.r && Next(s, step).store.objs[r] == Server(step.p, None, Unknown, -1) &&
                          Turned(Next(s, step).store, r, CreateFails)
    ensures step.Load? ==>
              && InConfig(step.loaded, r) && Known(step.loaded, r)
              && if Active(step.loaded, r) then Started(Next(s, step).store, r, step.v.starts, step.v.outs)
                 else Turned(Next(s, step).store, r, CreateFails)
  {
    assert Fine(s.store);
    match step {
      case Load(loaded, v) =>
        ManageSettles(loaded, v);
        assert InConfig(loaded, r);
        ManageOne(loaded, r, v);
        hide Manage;
      case Update(id, p, v) => UpdateConfig(s.store, id, p, v);
      case Apply(t, v) => ApplyConfig(s.store, s.pending[t].0, s.pending[t].1, v);
      case _ =>
    }
  }

  // --- a request to switch a server ---

  /** One call of UpdateServerActiveState by thread t: its two lock sections are steps i and j. */
  ghost predicate SwitchCall(steps: seq<Step>, i: nat, j: nat) {
    && i < j < |steps| && steps[i].Lookup? && steps[j].Apply? && steps[j].t == steps[i].t
    && forall k :: i < k < j ==> !((steps[k].Lookup? || steps[k].Apply?) && steps[k].t == steps[i].t)
  }

  lemma PendingNext(s: State, step: Step, t: Tid)
    requires Enabled(s, step)
    ensures var s' := Next(s, step);
            if step.Lookup? && step.t == t then
              if step.id in s.store.config then t in s'.pending && s'.pending[t] == (s.store.config[step.id], step.active)
              else t !in s'.pending
            else if step.Apply? && step.t == t then t !in s'.pending
            else (t in s'.pending <==> t in s.pending) && (t in s.pending ==> s'.pending[t] == s.pending[t])
  {
    hide Manage;
    hide UpdateServer;
    hide ApplyActive;
    hide Copied;
    hide Measured;
    hide MeasuredOne;
    hide DeleteServer;
    hide AddServer;
  }

  /** Between its sections a call keeps the object that it found, and the flag that it was asked for. */
  lemma {:induction false} PendingKept(steps: seq<Step>, states: seq<State>, i: nat, n: nat)
    requires Run(steps, states) && i < n < |states| && steps[i].Lookup?
    requires forall k :: i < k < n ==> !((steps[k].Lookup? || steps[k].Apply?) && steps[k].t == steps[i].t)
    ensures var t, id := steps[i].t, steps[i].id;
            if id in states[i].store.config
            then t in states[n].pending && states[n].pending[t] == (states[i].store.config[id], steps[i].active)
            else t !in states[n].pending
    decreases n
  {
    hide Next;
    PendingNext(states[n - 1], steps[n - 1], steps[i].t);
    if n > i + 1 {
      PendingKept(steps, states, i, n - 1);
    }
  }

  /** What a request to switch object r leaves behind. */
  ghost predicate SwitchedTo(s: Store, s': Store, r: Ref, active: bool, v: Visit)
    requires |v.starts| == |v.outs| && Known(s, r)
  {
    && Known(s', r)
    && (Active(s', r) <==> active && (Active(s, r) || (r in v.starts && OutcomeOf(v.starts, v.outs, r).Starts?)))
    && s'.objs[r] ==
       if !Active(s', r) then s.objs[r].(instance := None)
       else if Active(s, r) then s.objs[r]
       else s.objs[r].(instance := Some(OutcomeOf(v.starts, v.outs, r).inst), health := Up)
  }

  lemma ApplySwitches(s: Store, r: Ref, active: bool, v: Visit)
    requires Fine(s) && InConfig(s, r) && ValidVisit(s, v)
    ensures Known(s, r) && SwitchedTo(s, ApplyActive(s, r, active, v), r, active, v)
  {
    KnownIn(s, r);
    if Active(s, r) == active {
      assert Active(s, r) <==> s.objs[r].instance.Some?;
    } else {
      SwitchEffect(s, r, active, v);
      SetActiveSound(s, r, active);
      SameVisit(s, SetActive(s, r, active), v);
      ManageSettles(SetActive(s, r, active), v);
      hide Manage;
    }
  }

  /** The second section. */
  lemma SwitchStep(s: State, step: Step, r: Ref, active: bool)
    requires Inv(s) && Enabled(s, step) && step.Apply? && s.pending[step.t] == (r, active) && r in s.store.azone
    ensures var s' := Next(s, step).store;
            && (InConfig(s.store, r) ==> Known(s.store, r) && |step.v.starts| == |step.v.outs| &&
                                         SwitchedTo(s.store, s', r, active, step.v))
            && OthersSame(s.store, s', r)
  {
    assert Fine(s.store) && ValidVisit(s.store, step.v);
    var s' := Next(s, step).store;
    assert s' == ApplyActive(s.store, r, active, step.v);
    hide Next;
    hide Enabled;
    hide Inv;
    hide ApplyActive;
    hide Fine;
    hide ValidVisit;
    ApplyConfig(s.store, r, active, step.v);
    if InConfig(s.store, r) {
      ApplySwitches(s.store, r, active, step.v);
    }
    hide SwitchedTo;
    hide Same;
    forall q | InConfig(s.store, q) && q != r
      ensures InConfig(s', q) && Same(s.store, s', q)
    {
      ApplySame(s.store, r, active, step.v, q);
    }
  }

  lemma {:induction false} InSomeOrder(refs: set<Ref>) returns (order: seq<Ref>)
    ensures forall r :: r in order <==> r in refs
    decreases |refs|
  {
    order := [];
    if refs != {} {
      var r :| r in refs;
      var rest := InSomeOrder(refs - {r});
      order := [r] + rest;
    }
  }

  /** Every section can proceed, whatever the state: in particular there always is an order for the two loops. */
  lemma NothingBlocks(s: State, t: Tid, id: Id, h: Health, active: bool) returns (v: Visit)
    ensures t in s.pending ==> Enabled(s, Apply(t, v))
    ensures t !in s.pending ==> Enabled(s, Lookup(t, id, active))
    ensures forall p :: p !in s.store.profiles ==> Enabled(s, Update(id, p, v))
    ensures Enabled(s, Delete(id)) && Enabled(s, CheckOne(id, h))
    ensures t !in s.checks ==> Enabled(s, BeginCheck(t))
    ensures t in s.checks ==> Enabled(s, EndCheck(t, map k | k in s.checks[t] :: (h, 0)))
    ensures t in s.snaps ==> Enabled(s, Publish(t))
  {
    var order := InSomeOrder(set r | r in s.store.azone && InConfig(s.store, r));
    v := Visit(order, order, seq(|order|, i => CreateFails));
    assert ValidVisit(s.store, v);
  }

  /**
   A whole request, whatever comes between its two sections: the server is the one that had the ID at
   the first section.  If that ID was not deleted in between, then afterwards the server is active
   exactly if that was asked for and it was active already or its start succeeds, and it has an
   instance exactly if it is active.  All other servers are as they were.
   */
  lemma SwitchOutcome(steps: seq<Step>, states: seq<State>, i: nat, j: nat)
    requires Run(steps, states) && SwitchCall(steps, i, j)
    ensures steps[i].id in states[i].store.config
    ensures var s, s', r := states[j].store, states[j + 1].store, states[i].store.config[steps[i].id];
            && (InConfig(s, r) <==> forall k :: i <= k < j ==> steps[k] != Delete(steps[i].id))
            && (InConfig(s, r) ==> Known(s, r) && |steps[j].v.starts| == |steps[j].v.outs| &&
                                   SwitchedTo(s, s', r, steps[i].active, steps[j].v))
            && OthersSame(s, s', r)
  {
    PendingKept(steps, states, i, j);
    assert Enabled(states[j], steps[j]) && states[j + 1] == Next(states[j], steps[j]);
    var r := states[i].store.config[steps[i].id];
    Safety(steps, states, i);
    Safety(steps, states, j);
    assert InConfig(states[i].store, r) && states[i].store.azone[r] == steps[i].id;
    ServerUntil(steps, states, i, j, r);
    hide *;
    SwitchStep(states[j], steps[j], r, steps[i].active);
  }
}
