/**
 What shows through in the published snapshots of AppServer.  A snapshot shares its profiles with
 the A-zone, so the Active flag of a published server can change; which steps change it, and when
 the snapshot therefore breaks the rule "Active means having an instance", is stated exactly.  So is
 when the latest snapshot is not the one that is published.
 */
module AppPublish {
  import opened Wrappers
  import opened AppServer
  import opened AppRuns
  import opened AppEffects

  // --- which steps change the Active flag of a profile ---

  lemma {:induction false} StartAllFlag(s: Store, order: seq<Ref>, outs: seq<Outcome>, p: ProfileRef)
    requires Sound(s) && |order| == |outs| && NewInstances(s.created, outs) && p in s.profiles
    requires forall r :: r in order ==> InConfig(s, r) && s.objs[r].profile != p
    ensures p in StartAll(s, order, outs).profiles && StartAll(s, order, outs).profiles[p] == s.profiles[p]
    decreases |order|
  {
    if order == [] {
    } else {
      StartStep(s, order, outs);
      var s1 := StartOne(s, order[0], outs[0]);
      assert order[0] in order && s1.profiles[p] == s.profiles[p];
      assert forall r :: r in order[1..] ==> r in order;
      hide StartOne;
      hide Sound;
      hide NewInstances;
      StartAllFlag(s1, order[1..], outs[1..], p);
    }
  }

  /** The profile is the current one of a server in configState. */
  ghost predicate InUse(s: Store, p: ProfileRef)
    requires p in s.profiles
  {
    InConfig(s, s.profiles[p].owner) && Known(s, s.profiles[p].owner) && s.objs[s.profiles[p].owner].profile == p
  }

  /** manageInstances changes no flag but those of servers that are not settled. */
  lemma ManageFlag(s: Store, v: Visit, p: ProfileRef)
    requires Sound(s) && ValidVisit(s, v) && p in s.profiles
    requires InUse(s, p) ==> Ok(s, s.profiles[p].owner)
    ensures p in Manage(s, v).profiles && Manage(s, v).profiles[p].active == s.profiles[p].active
  {
    if InUse(s, p) {
      ManageOne(s, s.profiles[p].owner, v);
      assert Same(s, Manage(s, v), s.profiles[p].owner);
    } else {
      StopAllSound(s, v.stops);
      StopAllFlags(s, v.stops);
      var s1 := StopAll(s, v.stops);
      assert forall r :: InConfig(s1, r) <==> InConfig(s, r);
      assert forall r :: r in v.starts ==> s1.objs[r].profile == s.objs[r].profile;
      hide StopAll;
      hide StartAll;
      StartAllFlag(s1, v.starts, v.outs, p);
    }
  }

  lemma UpdateFlag(s: Store, id: Id, p: ProfileRef, v: Visit, q: ProfileRef)
    requires Fine(s) && p !in s.profiles && ValidVisit(s, v) && q in s.profiles
    ensures q in UpdateServer(s, id, p, v).profiles
    ensures UpdateServer(s, id, p, v).profiles[q].active == s.profiles[q].active
  {
    if id in s.config && Known(s, s.config[id]) {
      var r := s.config[id];
      assert InConfig(s, r);
      Exchanged(s, r, p);
      var s2 := CloseOne(Reprofile(s, r, p), r);
      assert s2.profiles[q] == s.profiles[q];
      if InUse(s2, q) {
        var o := s.profiles[q].owner;
        assert o != r && InConfig(s, o) && Same(s, s2, o);
      }
      SameVisit(s, s2, v);
      ManageFlag(s2, v, q);
    }
  }

  /** The request changes the flag of p for good, unless its own start fails. */
  ghost predicate Flips(s: Store, r: Ref, active: bool, v: Visit, p: ProfileRef)
    requires |v.starts| == |v.outs|
  {
    && Known(s, r) && s.objs[r].profile == p && s.profiles[p].active != active
    && (active && InConfig(s, r) ==> r in v.starts && OutcomeOf(v.starts, v.outs, r).Starts?)
  }

  lemma ApplyFlag(s: Store, r: Ref, active: bool, v: Visit, p: ProfileRef)
    requires Fine(s) && r in s.azone && ValidVisit(s, v) && p in s.profiles
    ensures p in ApplyActive(s, r, active, v).profiles
    ensures ApplyActive(s, r, active, v).profiles[p].active != s.profiles[p].active <==> Flips(s, r, active, v, p)
  {
    if Active(s, r) == active {
    } else if s.objs[r].profile == p && InConfig(s, r) {
      ApplyFine(s, r, active, v);
      SwitchEffect(s, r, active, v);
      assert ApplyActive(s, r, active, v).objs[r].profile == p by { AppliedShape(s, r, active, v); }
    } else {
      var s1 := SetActive(s, r, active);
      SetActiveSound(s, r, active);
      SameVisit(s, s1, v);
      if InUse(s1, p) {
        var o := s1.profiles[p].owner;
        assert o != r && InConfig(s, o) && Active(s1, o) == Active(s, o);
      }
      ManageFlag(s1, v, p);
    }
  }

  lemma AppliedShape(s: Store, r: Ref, active: bool, v: Visit)
    requires Fine(s) && r in s.azone && ValidVisit(s, v)
    ensures r in ApplyActive(s, r, active, v).objs && ApplyActive(s, r, active, v).objs[r].profile == s.objs[r].profile
  {
    SetActiveSound(s, r, active);
    SameVisit(s, SetActive(s, r, active), v);
    ManageSettles(SetActive(s, r, active), v);
  }

  /** A step that switches the flag of profile p: the second section of UpdateServerActiveState. */
  ghost predicate Switches(s: State, step: Step, p: ProfileRef)
    requires Enabled(s, step)
  {
    step.Apply? && Flips(s.store, s.pending[step.t].0, s.pending[step.t].1, step.v, p)
  }

  /** No other step changes the flag of any profile, published or not. */
  lemma FlagNext(s: State, step: Step, p: ProfileRef)
    requires Inv(s) && Enabled(s, step) && p in s.store.profiles
    ensures p in Next(s, step).store.profiles
    ensures Next(s, step).store.profiles[p].active != s.store.profiles[p].active <==> Switches(s, step, p)
  {
    assert Fine(s.store);
    hide Fine;
    hide Manage;
    match step {
      case Update(id, q, v) => UpdateFlag(s.store, id, q, v, p);
      case Apply(t, v) => ApplyFlag(s.store, s.pending[t].0, s.pending[t].1, v, p);
      case _ =>
    }
  }

  /** How often the flag of p is switched from step k to step n. */
  ghost function Switchings(steps: seq<Step>, states: seq<State>, k: nat, n: nat, p: ProfileRef): nat
    requires Run(steps, states) && k <= n < |states|
    decreases n - k
  {
    if k == n then 0
    else Switchings(steps, states, k, n - 1, p) + if Switches(states[n - 1], steps[n - 1], p) then 1 else 0
  }

  lemma {:induction false} FlagParity(steps: seq<Step>, states: seq<State>, k: nat, n: nat, p: ProfileRef)
    requires Run(steps, states) && k <= n < |states| && p in states[k].store.profiles
    ensures p in states[n].store.profiles
    ensures states[n].store.profiles[p].active == states[k].store.profiles[p].active <==>
            Switchings(steps, states, k, n, p) % 2 == 0
    decreases n - k
  {
    hide Next;
    hide Enabled;
    hide Switches;
    hide Inv;
    if k == n {
    } else {
      FlagParity(steps, states, k, n - 1, p);
      Safety(steps, states, n - 1);
      FlagNext(states[n - 1], steps[n - 1], p);
    }
  }

  /** Between publications the B-zone objects do not change; their flag changes with the switching steps only. */
  lemma OnlyActiveShowsThrough(steps: seq<Step>, states: seq<State>, n: nat, id: Id)
    requires Run(steps, states) && n < |steps| && !steps[n].Publish? && id in states[n].work
    ensures var s, s', r := states[n].store, states[n + 1].store, states[n].work[id];
            && states[n + 1].work == states[n].work
            && Known(s, r) && Known(s', r) && s'.objs[r] == s.objs[r]
            && (Active(s', r) != Active(s, r) <==> Switches(states[n], steps[n], s.objs[r].profile))
  {
    Safety(steps, states, n);
    StoreNext(states[n], steps[n]);
    WorkNext(states[n], steps[n]);
    FlagNext(states[n], steps[n], states[n].store.objs[states[n].work[id]].profile);
    hide Next;
    hide Sound;
    hide Settled;
    hide Switches;
    FrozenGrows(states[n].store, states[n + 1].store, states[n].work);
  }

  /**
   The rule "Active means having an instance" holds of a published server if and only if its flag
   was switched an even number of times since the state that the snapshot shows.
   */
  lemma PublishedSettledIff(steps: seq<Step>, states: seq<State>, n: nat, k: nat, id: Id)
    requires Run(steps, states) && k <= n < |states| && id in states[n].work
    requires View(states[n].store, states[n].work) == View(states[k].store, states[k].store.config)
    ensures var s, r := states[n].store, states[n].work[id];
            && Known(s, r)
            && ((Active(s, r) <==> s.objs[r].instance.Some?) <==>
                Switchings(steps, states, k, n, s.objs[r].profile) % 2 == 0)
  {
    hide Next;
    hide Enabled;
    Safety(steps, states, n);
    Safety(steps, states, k);
    assert id in View(states[n].store, states[n].work);
    assert id in View(states[k].store, states[k].store.config);
    assert InConfig(states[k].store, states[k].store.config[id]);
    FlagParity(steps, states, k, n, states[n].store.objs[states[n].work[id]].profile);
  }

  // --- a run in which it is broken ---

  lemma Extended(steps: seq<Step>, states: seq<State>, step: Step)
    requires Run(steps, states) && Enabled(states[|steps|], step)
    ensures Run(steps + [step], states + [Next(states[|steps|], step)])
  {
    hide Next;
    hide Enabled;
  }

  const NEW_SERVER: Server := Server(0, None, Unknown, -1)

  /** One server has been added. */
  const ONE: Store := Store(map[0 := NEW_SERVER], map[0 := 0], map[0 := Profile(false, 0)], map[0 := 0], map[], {})

  lemma AddedFirst(s: State)
    requires s.store == EMPTY
    ensures Enabled(s, Add(0, 0, 0)) && Next(s, Add(0, 0, 0)) == s.(store := ONE)
  {
  }

  lemma CopyIs(s: State, t: Tid, refs: map<Id, Ref>)
    requires Enabled(s, Copy(t, refs))
    ensures Next(s, Copy(t, refs)) == s.(store := Copied(s.store, refs), snaps := s.snaps[t := refs])
    ensures Copied(s.store, refs).config == s.store.config
  {
  }

  lemma PublishIs(s: State, t: Tid)
    requires t in s.snaps
    ensures Enabled(s, Publish(t)) && Next(s, Publish(t)) == s.(work := s.snaps[t], snaps := s.snaps - {t})
  {
  }

  /** Perhaps with copies of its object. */
  ghost predicate LikeOne(s: Store) {
    s == ONE.(objs := s.objs) && 0 in s.objs && s.objs[0] == NEW_SERVER
  }

  ghost predicate CopiesFirst(states: seq<State>) {
    && Run([Add(0, 0, 0), Copy(0, map[0 := 1])], states)
    && states[2] == State(states[2].store, map[], map[], map[0 := map[0 := 1]], map[])
    && LikeOne(states[2].store) && 1 in states[2].store.objs && states[2].store.objs[1] == NEW_SERVER
  }

  /** A server is added and copied. */
  lemma CopiedFirst()
    ensures exists states :: CopiesFirst(states)
  {
    hide Next;
    hide Copied;
    var s0 := State(EMPTY, map[], map[], map[], map[]);
    AddedFirst(s0);
    var s1 := s0.(store := ONE);
    assert Enabled(s1, Copy(0, map[0 := 1]));
    CopyIs(s1, 0, map[0 := 1]);
    var s2 := Next(s1, Copy(0, map[0 := 1]));
    CopyOfOne();
    hide Enabled;
    var states := [s0, s1, s2];
    assert CopiesFirst(states);
  }

  lemma CopyOfOne()
    ensures Injective(map[0 := 1])
    ensures var s := Copied(ONE, map[0 := 1]); LikeOne(s) && 1 in s.objs && s.objs[1] == NEW_SERVER
  {
    assert WellFormed(ONE);
    CopiedObjs(ONE, map[0 := 1]);
    assert 0 in map[0 := 1] && 0 in ONE.objs;
    hide Duplicates;
  }

  /** Then it is published, and switched on: the published server is active and has no instance. */
  lemma ActiveWithoutInstance()
    ensures exists steps: seq<Step>, states: seq<State> ::
              && Run(steps, states) && |states| == 6 && 0 in states[5].work
              && var s, r := states[5].store, states[5].work[0]; Known(s, r) && Active(s, r) && s.objs[r].instance == None
  {
    var steps: seq<Step>, states: seq<State>;
    CopiedFirst();
    var ss :| CopiesFirst(ss);
    PublishIs(ss[2], 0);
    var s3 := Next(ss[2], Publish(0));
    var s4 := s3.(pending := map[0 := (0, true)]);
    LookupIs(s3);
    var v := Visit([0], [0], [Starts(5)]);
    assert Enabled(s4, Apply(0, v)) && Switches(s4, Apply(0, v), 0);
    hide Next;
    hide Enabled;
    steps, states := [Add(0, 0, 0), Copy(0, map[0 := 1])] + [Publish(0), Lookup(0, 0, true)], ss + [s3, s4];
    Extended(steps, states, Apply(0, v));
    steps, states := steps + [Apply(0, v)], states + [Next(s4, Apply(0, v))];
    OnlyActiveShowsThrough(steps, states, 4, 0);
  }

  lemma LookupIs(s: State)
    requires LikeOne(s.store) && s.pending == map[]
    ensures Enabled(s, Lookup(0, 0, true)) && Next(s, Lookup(0, 0, true)) == s.(pending := map[0 := (0, true)])
  {
  }

  // --- which copy is published ---

  /** The publication in force after n steps: copied at step c, stored at step j, by one call. */
  ghost predicate InForce(steps: seq<Step>, n: nat, c: nat, j: nat)
    requires n <= |steps|
  {
    && c < j < n && steps[c].Copy? && steps[j] == Publish(steps[c].t)
    && (forall k :: j < k < n ==> !steps[k].Publish?)
    && (forall k :: c < k < j ==> !(steps[k].Copy? && steps[k].t == steps[c].t))
  }

  /** A copy that waits was made by its call, which has not copied again. */
  lemma {:induction false} CopiedBefore(steps: seq<Step>, states: seq<State>, n: nat, t: Tid) returns (c: nat)
    requires Run(steps, states) && n < |states| && t in states[n].snaps
    ensures c < n && steps[c].Copy? && steps[c].t == t && states[n].snaps[t] == steps[c].refs
    ensures forall k :: c < k < n ==> !(steps[k].Copy? && steps[k].t == t)
    ensures View(states[n].store, steps[c].refs) == View(states[c].store, states[c].store.config)
  {
    hide Next;
    hide View;
    hide Sound;
    hide Settled;
    hide Frozen;
    assert n > 0;
    SnapsNext(states[n - 1], steps[n - 1], t);
    if steps[n - 1].Copy? && steps[n - 1].t == t {
      c := n - 1;
      Safety(steps, states, c);
      CopyStore(states[c], steps[c]);
    } else {
      c := CopiedBefore(steps, states, n - 1, t);
      Safety(steps, states, n - 1);
      StoreAfter(steps, states, n - 1);
      FrozenView(states[n - 1].store, states[n].store, steps[c].refs);
    }
  }

  lemma CopyStore(s: State, step: Step)
    requires Inv(s) && Enabled(s, step) && step.Copy?
    ensures View(Next(s, step).store, step.refs) == View(s.store, s.store.config)
  {
    hide Copied;
    CopiedView(s.store, step.refs);
  }

  lemma {:induction false} Waits(steps: seq<Step>, states: seq<State>, i: nat, n: nat)
    requires Run(steps, states) && i < n < |states| && steps[i].Copy? && steps[i].t !in states[n].snaps
    ensures exists m :: i < m < n && steps[m] == Publish(steps[i].t)
    decreases n - i
  {
    hide Next;
    var t := steps[i].t;
    SnapsKept(states[n - 1], steps[n - 1], t);
    if n == i + 1 {
    } else if steps[n - 1] == Publish(t) {
    } else {
      Waits(steps, states, i, n - 1);
    }
  }

  lemma SnapsKept(s: State, step: Step, t: Tid)
    requires Enabled(s, step) && t !in Next(s, step).snaps
    ensures !(step.Copy? && step.t == t) && (t in s.snaps ==> step == Publish(t))
  {
    hide Manage;
    hide UpdateServer;
    hide ApplyActive;
    hide Copied;
    hide Measured;
    hide MeasuredOne;
    hide DeleteServer;
    hide AddServer;
  }

  /** What is published: the A-zone as it was at the copy of the last publication. */
  lemma {:induction false} LastPublication(steps: seq<Step>, states: seq<State>, n: nat) returns (c: nat, j: nat)
    requires Run(steps, states) && n < |states| && exists k :: 0 <= k < n && steps[k].Publish?
    ensures InForce(steps, n, c, j) && states[n].work == steps[c].refs
    ensures View(states[n].store, states[n].work) == View(states[c].store, states[c].store.config)
  {
    hide Next;
    hide Enabled;
    hide View;
    hide Frozen;
    hide Grows;
    WorkAfter(steps, states, n - 1);
    if steps[n - 1].Publish? {
      j := n - 1;
      c := CopiedBefore(steps, states, j, steps[j].t);
    } else {
      assert exists k :: 0 <= k < n - 1 && steps[k].Publish?;
      c, j := LastPublication(steps, states, n - 1);
    }
    StoreAfter(steps, states, n - 1);
    FrozenView(states[n - 1].store, states[n].store, states[n].work);
  }

  /** Another call copied after the copy c and stored before the store j. */
  ghost predicate Overtaken(steps: seq<Step>, c: nat, j: nat)
    requires j <= |steps|
  {
    exists i, m :: c < i < m < j && steps[i].Copy? && steps[m] == Publish(steps[i].t)
  }

  /**
   When no call is between copying and storing, the latest copy is the one in force if and only if
   the last publication was not overtaken by one that had copied later.
   */
  lemma LatestIff(steps: seq<Step>, states: seq<State>, n: nat, c: nat, j: nat)
    requires Run(steps, states) && n < |states| && InForce(steps, n, c, j) && states[n].snaps == map[]
    ensures (forall k :: c < k < n ==> !steps[k].Copy?) <==> !Overtaken(steps, c, j)
  {
    hide Next;
    hide Enabled;
    if k :| c < k < n && steps[k].Copy? {
      Waits(steps, states, k, n);
      var m :| k < m < n && steps[m] == Publish(steps[k].t);
      assert m != j;
    }
  }

  ghost function Shown(s: State): map<Id, Server> {
    View(s.store, s.store.config)
  }

  /** Step k changes what the A-zone shows. */
  ghost predicate Changes(states: seq<State>, k: nat) {
    k + 1 < |states| && Shown(states[k + 1]) != Shown(states[k])
  }

  lemma {:induction false} Undisturbed(states: seq<State>, c: nat, n: nat)
    requires c <= n < |states| && forall k :: c <= k < n ==> !Changes(states, k)
    ensures Shown(states[n]) == Shown(states[c])
    decreases n - c
  {
    hide Shown;
    if c == n {
    } else {
      Undisturbed(states, c, n - 1);
      assert !Changes(states, n - 1);
    }
  }

  /** Then, if nothing in the A-zone changed since the latest copy, the B-zone shows the A-zone. */
  lemma PublishedIsCurrent(steps: seq<Step>, states: seq<State>, n: nat) returns (c: nat, j: nat)
    requires Run(steps, states) && n < |states| && exists k :: 0 <= k < n && steps[k].Publish?
    requires states[n].snaps == map[]
    requires forall k :: 0 <= k < n && Changes(states, k) ==> exists l :: k < l < n && steps[l].Copy?
    ensures InForce(steps, n, c, j)
    ensures !Overtaken(steps, c, j) ==> View(states[n].store, states[n].work) == Shown(states[n])
  {
    hide Next;
    hide Enabled;
    hide View;
    c, j := LastPublication(steps, states, n);
    if !Overtaken(steps, c, j) {
      LatestIff(steps, states, n, c, j);
      Undisturbed(states, c, n);
    }
  }

  lemma DeleteIs(s: State)
    requires LikeOne(s.store)
    ensures Enabled(s, Delete(0)) && Next(s, Delete(0)) == s.(store := s.store.(config := map[]))
  {
    assert s.store.config - {0} == map[];
  }

  /** Two calls in the wrong order: the server is deleted, and stays published with nothing pending. */
  lemma DeletedStaysPublished()
    ensures exists steps: seq<Step>, states: seq<State> ::
              && Run(steps, states) && |states| == 7 && states[6].snaps == map[]
              && states[6].work == map[0 := 1] && states[6].store.config == map[]
  {
    var steps: seq<Step>, states: seq<State>;
    hide Next;
    hide Copied;
    hide LikeOne;
    CopiedFirst();
    var ss :| CopiesFirst(ss);
    DeleteIs(ss[2]);
    var s3 := Next(ss[2], Delete(0));
    assert Enabled(s3, Copy(1, map[]));
    CopyIs(s3, 1, map[]);
    var s4 := Next(s3, Copy(1, map[]));
    PublishIs(s4, 1);
    var s5 := Next(s4, Publish(1));
    PublishIs(s5, 0);
    var s6 := Next(s5, Publish(0));
    assert s6.snaps == map[];
    hide Enabled;
    steps := [Add(0, 0, 0), Copy(0, map[0 := 1])] + [Delete(0), Copy(1, map[]), Publish(1), Publish(0)];
    states := ss + [s3, s4, s5, s6];
    assert Run(steps, states);
  }
}
