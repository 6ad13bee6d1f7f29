/**
 Runs of AppServer: every step keeps the instances in order, and the B-zone always is some state
 that the A-zone was in.
 */
module AppRuns {
  import opened Wrappers
  import opened AppServer

  datatype State = State(
    store: Store,
    work: map<Id, Ref>,                // workState.Servers
    pending: map<Tid, (Ref, bool)>,    // UpdateServerActiveState between its lock sections
    snaps: map<Tid, map<Id, Ref>>,     // ReloadStrategy between copying and storing
    checks: map<Tid, map<Id, Inst>>)   // runHealthChecks between its lock sections: what it checks

  const EMPTY: Store := Store(map[], map[], map[], map[], map[], {})

  predicate Init(s: State) {
    s == State(EMPTY, map[], map[], map[], map[])
  }

  datatype Step =
    | Load(loaded: Store, v: Visit)                     // bootstrap: servers.json, then manageInstances
    | Add(id: Id, r: Ref, p: ProfileRef)                // the handler adds profiles as inactive
    | Update(id: Id, p: ProfileRef, v: Visit)
    | Delete(id: Id)
    | Lookup(t: Tid, id: Id, active: bool)              // UpdateServerActiveState, read-locked section
    | Apply(t: Tid, v: Visit)                           // UpdateServerActiveState, write-locked section
    | BeginCheck(t: Tid)                                // runHealthChecks, read-locked section
    | EndCheck(t: Tid, results: map<Id, (Health, int)>) // runHealthChecks, write-locked section
    | CheckOne(id: Id, health: Health)                  // triggerSingleHealthCheck
    | Copy(t: Tid, refs: map<Id, Ref>)                  // ReloadStrategy: deepCopyAppState
    | Publish(t: Tid)                                   // ReloadStrategy: swap workState

  /** Profiles as loaded from the file: any of them may be active, none has an instance. */
  ghost predicate Loaded(s: Store) {
    && WellFormed(s) && s.live == map[] && s.created == {}
    && forall r :: r in s.azone ==> s.objs[r].instance.None?
  }

  ghost predicate Enabled(s: State, step: Step) {
    match step
    case Load(loaded, v) => s.store == EMPTY && Loaded(loaded) && ValidVisit(loaded, v)
    case Add(_, r, p) => r !in s.store.objs && p !in s.store.profiles
    case Update(_, p, v) => p !in s.store.profiles && ValidVisit(s.store, v)
    case Delete(_) => true
    case Lookup(t, _, _) => t !in s.pending
    case Apply(t, v) => t in s.pending && ValidVisit(s.store, v)
    case BeginCheck(t) => t !in s.checks
    case EndCheck(t, results) => t in s.checks && results.Keys == s.checks[t].Keys
    case CheckOne(_, _) => true
    case Copy(t, refs) =>
      && t !in s.snaps && refs.Keys == s.store.config.Keys
      && (forall id :: id in refs ==> refs[id] !in s.store.objs)
      && Injective(refs)
    case Publish(t) => t in s.snaps
  }

  function AddServer(s: Store, id: Id, r: Ref, p: ProfileRef): Store {
    if id in s.config then s
    else s.(objs := s.objs[r := Server(p, None, Unknown, -1)],
            azone := s.azone[r := id],
            profiles := s.profiles[p := Profile(false, r)],
            config := s.config[id := r])
  }

  /** The new profile object takes over the Active flag of the one it replaces. */
  function Reprofile(s: Store, r: Ref, p: ProfileRef): Store
    requires r in s.objs && s.objs[r].profile in s.profiles
  {
    s.(profiles := s.profiles[p := Profile(Active(s, r), r)],
       objs := s.objs[r := s.objs[r].(profile := p)])
  }

  predicate Known(s: Store, r: Ref) {
    r in s.objs && s.objs[r].profile in s.profiles
  }

  function UpdateServer(s: Store, id: Id, p: ProfileRef, v: Visit): Store
    requires |v.starts| == |v.outs|
  {
    if id !in s.config || !Known(s, s.config[id]) then s
    else
      var r := s.config[id];
      var s1 := Reprofile(s, r, p);
      if Active(s, r) && s.objs[r].instance.Some? then Manage(CloseOne(s1, r), v) else s1
  }

  function DeleteServer(s: Store, id: Id): Store {
    if id !in s.config then s
    else var s1 := CloseOne(s, s.config[id]); s1.(config := s1.config - {id})
  }

  function ApplyActive(s: Store, r: Ref, active: bool, v: Visit): Store
    requires |v.starts| == |v.outs|
  {
    if !Known(s, r) || Active(s, r) == active then s else Manage(SetActive(s, r, active), v)
  }

  /** The instances that a round of health checks looks at. */
  function Running(s: Store): map<Id, Inst> {
    map id | id in s.config && Known(s, s.config[id]) && Active(s, s.config[id]) && s.objs[s.config[id]].instance.Some? ::
      s.objs[s.config[id]].instance.value
  }

  function Measured(s: Store, results: map<Id, (Health, int)>): Store {
    s.(objs := map r | r in s.objs ::
         if InConfig(s, r) && s.azone[r] in results
         then s.objs[r].(health := results[s.azone[r]].0, metrics := results[s.azone[r]].1)
         else s.objs[r])
  }

  function MeasuredOne(s: Store, id: Id, h: Health): Store {
    if id in s.config && s.config[id] in s.objs && s.objs[s.config[id]].instance.Some?
    then s.(objs := s.objs[s.config[id] := s.objs[s.config[id]].(health := h)])
    else s
  }

  ghost predicate Injective(refs: map<Id, Ref>) {
    forall i, j :: i in refs && j in refs && i != j ==> refs[i] != refs[j]
  }

  ghost function Duplicates(s: Store, refs: map<Id, Ref>): map<Ref, Server>
    requires Injective(refs)
  {
    map id | id in refs && id in s.config && s.config[id] in s.objs :: refs[id] := s.objs[s.config[id]]
  }

  /** deepCopyAppState: new ServerState objects that share profile and instance. */
  ghost function Copied(s: Store, refs: map<Id, Ref>): Store
    requires Injective(refs)
  {
    s.(objs := s.objs + Duplicates(s, refs))
  }

  ghost predicate Inv(s: State) {
    && Sound(s.store) && Settled(s.store)
    && (forall t :: t in s.pending ==> s.pending[t].0 in s.store.azone)
    && Frozen(s.store, s.work)
    && (forall t :: t in s.snaps ==> Frozen(s.store, s.snaps[t]))
  }

  /** Published objects exist and are none of the A-zone's. */
  ghost predicate Frozen(s: Store, m: map<Id, Ref>) {
    forall id :: id in m ==> m[id] in s.objs && m[id] !in s.azone && s.objs[m[id]].profile in s.profiles
  }

  ghost function Next(s: State, step: Step): State
    requires Enabled(s, step)
  {
    match step
    case Load(loaded, v) => s.(store := Manage(loaded, v))
    case Add(id, r, p) => s.(store := AddServer(s.store, id, r, p))
    case Update(id, p, v) => s.(store := UpdateServer(s.store, id, p, v))
    case Delete(id) => s.(store := DeleteServer(s.store, id))
    case Lookup(t, id, active) =>
      if id in s.store.config then s.(pending := s.pending[t := (s.store.config[id], active)]) else s
    case Apply(t, v) =>
      s.(store := ApplyActive(s.store, s.pending[t].0, s.pending[t].1, v), pending := s.pending - {t})
    case BeginCheck(t) => s.(checks := s.checks[t := Running(s.store)])
    case EndCheck(t, results) => s.(store := Measured(s.store, results), checks := s.checks - {t})
    case CheckOne(id, h) => s.(store := MeasuredOne(s.store, id, h))
    case Copy(t, refs) => s.(store := Copied(s.store, refs), snaps := s.snaps[t := refs])
    case Publish(t) => s.(work := s.snaps[t], snaps := s.snaps - {t})
  }

  // --- each section keeps the A-zone in order ---

  /** A-zone objects stay, and objects outside it are not written to. */
  ghost predicate Grows(s: Store, s': Store) {
    && (forall r :: r in s.azone ==> r in s'.azone && s'.azone[r] == s.azone[r])
    && (forall r :: r in s.objs && r !in s.azone ==> r in s'.objs && r !in s'.azone && s'.objs[r] == s.objs[r])
    && (forall p :: p in s.profiles ==> p in s'.profiles)
  }

  ghost predicate Fine(s: Store) {
    Sound(s) && Settled(s)
  }

  lemma AddShape(s: Store, id: Id, r: Ref, p: ProfileRef)
    requires WellFormed(s) && r !in s.objs && p !in s.profiles && id !in s.config
    ensures var s' := AddServer(s, id, r, p);
            && WellFormed(s') && s'.live == s.live && s'.created == s.created
            && InConfig(s', r) && s'.objs[r].instance.None? && !Active(s', r)
            && (forall q :: InConfig(s', q) && q != r ==>
                  InConfig(s, q) && s'.objs[q] == s.objs[q] && Active(s', q) == Active(s, q))
            && (forall q :: InConfig(s, q) ==> InConfig(s', q) && s'.objs[q] == s.objs[q])
  {
  }

  lemma AddGrows(s: Store, id: Id, r: Ref, p: ProfileRef)
    requires WellFormed(s) && r !in s.objs
    ensures Grows(s, AddServer(s, id, r, p))
  {
  }

  lemma AddFine(s: Store, id: Id, r: Ref, p: ProfileRef)
    requires Fine(s) && r !in s.objs && p !in s.profiles
    ensures Fine(AddServer(s, id, r, p)) && Grows(s, AddServer(s, id, r, p))
  {
    AddGrows(s, id, r, p);
    if id !in s.config {
      AddShape(s, id, r, p);
      hide AddServer;
      hide Grows;
      hide WellFormed;
      hide InConfig;
      hide Active;
    }
  }

  lemma DeleteFine(s: Store, id: Id)
    requires Fine(s)
    ensures Fine(DeleteServer(s, id)) && Grows(s, DeleteServer(s, id))
  {
    if id in s.config {
      CloseOneSound(s, s.config[id]);
    }
  }

  lemma ApplyFine(s: Store, r: Ref, active: bool, v: Visit)
    requires Fine(s) && r in s.azone && ValidVisit(s, v)
    ensures Fine(ApplyActive(s, r, active, v)) && Grows(s, ApplyActive(s, r, active, v))
  {
    SetActiveSound(s, r, active);
    SameVisit(s, SetActive(s, r, active), v);
    ManageSettles(SetActive(s, r, active), v);
  }

  lemma SameVisit(s: Store, s': Store, v: Visit)
    requires ValidVisit(s, v) && s'.config == s.config && s'.azone == s.azone && s'.created == s.created
    ensures ValidVisit(s', v)
  {
    assert forall r :: InConfig(s', r) <==> InConfig(s, r);
  }

  lemma ReprofileSound(s: Store, r: Ref, p: ProfileRef)
    requires Sound(s) && r in s.azone && p !in s.profiles
    ensures Sound(Reprofile(s, r, p)) && Grows(s, Reprofile(s, r, p))
    ensures Settled(s) ==> Settled(Reprofile(s, r, p))
  {
  }

  lemma UpdateFine(s: Store, id: Id, p: ProfileRef, v: Visit)
    requires Fine(s) && p !in s.profiles && ValidVisit(s, v)
    ensures Fine(UpdateServer(s, id, p, v)) && Grows(s, UpdateServer(s, id, p, v))
  {
    if id in s.config {
      var r := s.config[id];
      ReprofileSound(s, r, p);
      var s1 := Reprofile(s, r, p);
      CloseOneSound(s1, r);
      SameVisit(s, CloseOne(s1, r), v);
      ManageSettles(CloseOne(s1, r), v);
    }
  }

  lemma MeasuredFine(s: Store, results: map<Id, (Health, int)>)
    requires Fine(s)
    ensures Fine(Measured(s, results)) && Grows(s, Measured(s, results))
  {
  }

  lemma MeasuredOneFine(s: Store, id: Id, h: Health)
    requires Fine(s)
    ensures Fine(MeasuredOne(s, id, h)) && Grows(s, MeasuredOne(s, id, h))
  {
  }

  /** New objects outside the A-zone change nothing. */
  lemma MoreObjects(s: Store, s': Store)
    requires Fine(s) && s' == s.(objs := s'.objs)
    requires forall r :: r in s.objs ==> r in s'.objs && s'.objs[r] == s.objs[r]
    ensures Fine(s') && Grows(s, s')
  {
    assert forall r :: InConfig(s', r) <==> InConfig(s, r);
  }

  lemma CopiedObjs(s: Store, refs: map<Id, Ref>)
    requires WellFormed(s) && refs.Keys == s.config.Keys
    requires forall id :: id in refs ==> refs[id] !in s.objs
    requires Injective(refs)
    ensures forall r :: r in s.objs ==> r in Copied(s, refs).objs && Copied(s, refs).objs[r] == s.objs[r]
    ensures forall id :: id in refs ==> refs[id] in Copied(s, refs).objs && Copied(s, refs).objs[refs[id]] == s.objs[s.config[id]]
  {
  }

  lemma CopiedFine(s: Store, refs: map<Id, Ref>)
    requires Fine(s) && refs.Keys == s.config.Keys
    requires forall id :: id in refs ==> refs[id] !in s.objs
    requires Injective(refs)
    ensures Fine(Copied(s, refs)) && Grows(s, Copied(s, refs))
    ensures Frozen(Copied(s, refs), refs)
  {
    CopiedObjs(s, refs);
    MoreObjects(s, Copied(s, refs));
  }

  lemma LoadFine(loaded: Store, v: Visit)
    requires Loaded(loaded) && ValidVisit(loaded, v)
    ensures Fine(Manage(loaded, v)) && Grows(EMPTY, Manage(loaded, v))
  {
    ManageSettles(loaded, v);
  }

  lemma StoreNext(s: State, step: Step)
    requires Inv(s) && Enabled(s, step)
    ensures Fine(Next(s, step).store) && Grows(s.store, Next(s, step).store)
  {
    assert Fine(s.store);
    hide Fine;
    hide Grows;
    match step {
      case Load(loaded, v) => LoadFine(loaded, v);
      case Add(id, r, p) => AddFine(s.store, id, r, p);
      case Update(id, p, v) => UpdateFine(s.store, id, p, v);
      case Delete(id) => DeleteFine(s.store, id);
      case Lookup(t, id, active) => Unchanged(s.store);
      case Apply(t, v) => ApplyFine(s.store, s.pending[t].0, s.pending[t].1, v);
      case BeginCheck(t) => Unchanged(s.store);
      case EndCheck(t, results) => MeasuredFine(s.store, results);
      case CheckOne(id, h) => MeasuredOneFine(s.store, id, h);
      case Copy(t, refs) => CopiedFine(s.store, refs);
      case Publish(t) => Unchanged(s.store);
    }
  }

  lemma Unchanged(s: Store)
    ensures Grows(s, s)
  {
  }

  lemma FrozenGrows(s: Store, s': Store, m: map<Id, Ref>)
    requires Frozen(s, m) && Grows(s, s')
    ensures Frozen(s', m) && forall id :: id in m ==> s'.objs[m[id]] == s.objs[m[id]]
  {
  }

  /** Every step, at every release of a lock, keeps the invariant. */
  lemma InvNext(s: State, step: Step)
    requires Inv(s) && Enabled(s, step)
    ensures Inv(Next(s, step))
  {
    StoreNext(s, step);
    var s' := Next(s, step);
    hide Sound;
    hide Settled;
    FrozenGrows(s.store, s'.store, s.work);
    forall t | t in s.snaps
      ensures Frozen(s'.store, s.snaps[t])
    {
      FrozenGrows(s.store, s'.store, s.snaps[t]);
    }
    if step.Copy? {
      CopiedFine(s.store, step.refs);
    }
  }

  // --- runs ---

  ghost predicate Run(steps: seq<Step>, states: seq<State>) {
    && |states| == |steps| + 1 && Init(states[0])
    && forall i :: 0 <= i < |steps| ==> Enabled(states[i], steps[i]) && states[i + 1] == Next(states[i], steps[i])
  }

  lemma {:induction false} Safety(steps: seq<Step>, states: seq<State>, n: nat)
    requires Run(steps, states) && n < |states|
    ensures Inv(states[n])
  {
    if n == 0 {
    } else {
      Safety(steps, states, n - 1);
      InvNext(states[n - 1], steps[n - 1]);
    }
  }

  /** The instances that configState refers to. */
  ghost function InstancesInUse(s: Store): set<Inst> {
    set id | id in s.config && s.config[id] in s.objs && s.objs[s.config[id]].instance.Some? ::
      s.objs[s.config[id]].instance.value
  }

  /** Over every run: no instance leaks, none is closed while in use, and Active means having one. */
  lemma Lifecycle(steps: seq<Step>, states: seq<State>, n: nat, id: Id)
    requires Run(steps, states) && n < |states|
    ensures states[n].store.live.Keys == InstancesInUse(states[n].store)
    ensures id in states[n].store.config ==>
              var s, r := states[n].store, states[n].store.config[id];
              Known(s, r) && (Active(s, r) <==> s.objs[r].instance.Some?)
  {
    Safety(steps, states, n);
    var s := states[n].store;
    hide Next;
    hide Enabled;
    forall i | i in s.live
      ensures i in InstancesInUse(s)
    {
      assert s.azone[s.live[i]] in s.config;
    }
    forall i | i in InstancesInUse(s)
      ensures i in s.live
    {
      var k :| k in s.config && s.config[k] in s.objs && s.objs[s.config[k]].instance == Some(i);
      assert InConfig(s, s.config[k]);
    }
    if id in s.config {
      assert InConfig(s, s.config[id]);
    }
  }

  // --- snapshots ---

  /** What a map of ServerState objects shows: profile pointer, instance, health and metrics. */
  ghost function View(s: Store, m: map<Id, Ref>): map<Id, Server> {
    map id | id in m && m[id] in s.objs :: s.objs[m[id]]
  }

  /** m shows, at time n, what configState showed at some time up to n. */
  ghost predicate FromPast(states: seq<State>, n: nat, m: map<Id, Ref>)
    requires n < |states|
  {
    exists k :: 0 <= k <= n && View(states[n].store, m) == View(states[k].store, states[k].store.config)
  }

  /** What a map of frozen objects shows does not change. */
  lemma FrozenView(s: Store, s': Store, m: map<Id, Ref>)
    requires Frozen(s, m) && Grows(s, s')
    ensures View(s', m) == View(s, m)
  {
    FrozenGrows(s, s', m);
    hide Grows;
  }

  lemma StoreAfter(steps: seq<Step>, states: seq<State>, n: nat)
    requires Run(steps, states) && n < |steps|
    ensures Grows(states[n].store, states[n + 1].store)
  {
    Safety(steps, states, n);
    hide Inv;
    hide Enabled;
    hide Next;
    StoreNext(states[n], steps[n]);
  }

  lemma FromPastStays(steps: seq<Step>, states: seq<State>, n: nat, m: map<Id, Ref>)
    requires Run(steps, states) && n < |steps| && Frozen(states[n].store, m) && FromPast(states, n, m)
    ensures FromPast(states, n + 1, m)
  {
    hide Next;
    hide Enabled;
    hide View;
    StoreAfter(steps, states, n);
    FrozenView(states[n].store, states[n + 1].store, m);
    var k :| 0 <= k <= n && View(states[n].store, m) == View(states[k].store, states[k].store.config);
    assert k <= n + 1;
  }

  lemma ViewOfAll(s: Store, m: map<Id, Ref>)
    requires forall id :: id in m ==> m[id] in s.objs
    ensures View(s, m).Keys == m.Keys && forall id :: id in m ==> View(s, m)[id] == s.objs[m[id]]
  {
  }

  lemma CopiedView(s: Store, refs: map<Id, Ref>)
    requires WellFormed(s) && refs.Keys == s.config.Keys
    requires forall id :: id in refs ==> refs[id] !in s.objs
    requires Injective(refs)
    ensures View(Copied(s, refs), refs) == View(s, s.config)
  {
    CopiedObjs(s, refs);
    ViewOfAll(Copied(s, refs), refs);
    ViewOfAll(s, s.config);
    hide Copied;
    hide View;
    hide WellFormed;
  }

  lemma CopyIsPresent(steps: seq<Step>, states: seq<State>, n: nat)
    requires Run(steps, states) && n < |steps| && steps[n].Copy?
    ensures FromPast(states, n + 1, steps[n].refs)
  {
    Safety(steps, states, n);
    hide Copied;
    hide Referenced;
    hide Settled;
    hide View;
    CopiedView(states[n].store, steps[n].refs);
    assert n <= n + 1;
  }

  lemma SnapsNext(s: State, step: Step, t: Tid)
    requires Enabled(s, step) && t in Next(s, step).snaps
    ensures if step.Copy? && step.t == t then Next(s, step).snaps[t] == step.refs
            else t in s.snaps && Next(s, step).snaps[t] == s.snaps[t]
  {
    hide Manage;
    hide UpdateServer;
    hide ApplyActive;
    hide Copied;
    hide Measured;
    hide MeasuredOne;
    hide DeleteServer;
    hide AddServer;
  }

  lemma {:induction false} SnapsFromPast(steps: seq<Step>, states: seq<State>, n: nat, t: Tid)
    requires Run(steps, states) && n < |states| && t in states[n].snaps
    ensures FromPast(states, n, states[n].snaps[t])
  {
    hide Sound;
    hide Settled;
    hide Next;
    hide Enabled;
    hide FromPast;
    if n == 0 {
    } else {
      SnapsNext(states[n - 1], steps[n - 1], t);
      if steps[n - 1].Copy? && steps[n - 1].t == t {
        CopyIsPresent(steps, states, n - 1);
      } else {
        SnapsFromPast(steps, states, n - 1, t);
        Safety(steps, states, n - 1);
        FromPastStays(steps, states, n - 1, states[n].snaps[t]);
      }
    }
  }

  lemma WorkNext(s: State, step: Step)
    requires Enabled(s, step)
    ensures Next(s, step).work == if step.Publish? then s.snaps[step.t] else s.work
  {
    hide Manage;
    hide UpdateServer;
    hide ApplyActive;
    hide Copied;
    hide Measured;
    hide MeasuredOne;
    hide DeleteServer;
    hide AddServer;
  }

  /** The B-zone after a step is what it was, or a copy that was waiting; neither is written to. */
  lemma WorkAfter(steps: seq<Step>, states: seq<State>, n: nat)
    requires Run(steps, states) && n < |steps|
    ensures Frozen(states[n].store, states[n + 1].work)
    ensures if steps[n].Publish?
            then steps[n].t in states[n].snaps && states[n + 1].work == states[n].snaps[steps[n].t]
            else states[n + 1].work == states[n].work
  {
    hide Sound;
    hide Settled;
    hide Next;
    hide Frozen;
    Safety(steps, states, n);
    WorkNext(states[n], steps[n]);
  }

  /** The B-zone always shows a state that the A-zone was in, however publications interleave. */
  lemma {:induction false} Snapshots(steps: seq<Step>, states: seq<State>, n: nat)
    requires Run(steps, states) && n < |states|
    ensures FromPast(states, n, states[n].work)
  {
    if n == 0 {
      hide Next;
      hide Enabled;
      assert View(states[0].store, states[0].work) == View(states[0].store, states[0].store.config);
    } else {
      hide FromPast;
      hide Frozen;
      hide Next;
      hide Enabled;
      WorkAfter(steps, states, n - 1);
      if steps[n - 1].Publish? {
        SnapsFromPast(steps, states, n - 1, steps[n - 1].t);
      } else {
        Snapshots(steps, states, n - 1);
      }
      FromPastStays(steps, states, n - 1, states[n].work);
    }
  }

  // --- the loop of deepCopyAppState ---

  lemma OneMore(s: Store, refs: map<Id, Ref>, id: Id, r: Ref)
    requires WellFormed(s) && Injective(refs) && id !in refs && id in s.config
    requires forall k :: k in refs ==> refs[k] != r
    ensures Injective(refs[id := r])
    ensures Duplicates(s, refs[id := r]) == Duplicates(s, refs)[r := s.objs[s.config[id]]]
  {
  }

  function WithCopies(s: Store, ghost refs: map<Id, Ref>, copies: map<Ref, Server>): (s': Store)
    requires Injective(refs) && copies == Duplicates(s, refs)
    ensures s' == Copied(s, refs)
  {
    s.(objs := s.objs + copies)
  }

  /** One turn of the loop: a new object with the values of the server's own. */
  method CopyOne(s: Store, copies: map<Ref, Server>, refs: map<Id, Ref>, id: Id, r: Ref)
    returns (copies': map<Ref, Server>, refs': map<Id, Ref>)
    requires WellFormed(s) && Injective(refs) && copies == Duplicates(s, refs) && id in s.config && id !in refs
    requires forall k :: k in refs ==> refs[k] < r
    ensures refs' == refs[id := r] && Injective(refs') && copies' == Duplicates(s, refs')
  {
    OneMore(s, refs, id, r);
    hide Duplicates;
    hide Injective;
    copies', refs' := copies[r := s.objs[s.config[id]]], refs[id := r];
  }

  /** The loop of deepCopyAppState, in any order; `next` is above every object made so far. */
  method DeepCopy(s: Store, next: nat) returns (s': Store, refs: map<Id, Ref>)
    requires WellFormed(s) && forall r :: r in s.objs ==> r < next
    ensures refs.Keys == s.config.Keys && Injective(refs)
    ensures forall id :: id in refs ==> refs[id] !in s.objs
    ensures s' == Copied(s, refs)
  {
    var copies: map<Ref, Server>, r := map[], next;
    var ids := s.config.Keys;
    refs := map[];
    assert copies == Duplicates(s, refs);
    hide *;
    while ids != {}
      invariant forall id :: id in s.config <==> id in ids || id in refs
      invariant forall id :: id in ids ==> id !in refs
      invariant next <= r && forall id :: id in refs ==> next <= refs[id] < r
      invariant Injective(refs) && copies == Duplicates(s, refs)
      decreases ids
    {
      var id :| id in ids;
      ids := ids - {id};
      copies, refs := CopyOne(s, copies, refs, id, r);
      r := r + 1;
    }
    assert refs.Keys == s.config.Keys;
    s' := WithCopies(s, refs, copies);
  }
}
