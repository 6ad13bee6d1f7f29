/**
 The instance lifecycle and the publication of snapshots in AppServer.

 ServerState objects, profiles and instances live in an explicit store, so that sharing is part of
 the model: a published snapshot consists of new ServerState objects that point to the same
 profiles.  A step is one critical section of configLock or workLock; the two sections of
 UpdateServerActiveState and of runHealthChecks, and the copying and storing halves of
 ReloadStrategy, are separate steps, so any other step may come between them.
 */
module AppServer {
  import opened Wrappers

  type Id = nat
  type Tid = nat
  type Ref = nat
  type ProfileRef = nat
  type Inst = nat

  datatype Health = Unknown | Up | Down

  /** A ServerState object. */
  datatype Server = Server(profile: ProfileRef, instance: Option<Inst>, health: Health, metrics: int)

  /** A ServerProfile object: its Active flag, and the A-zone object that it belongs to. */
  datatype Profile = Profile(active: bool, owner: Ref)

  /** What configLock protects, and all objects it leads to. */
  datatype Store = Store(
    objs: map<Ref, Server>,            // every ServerState object ever made
    azone: map<Ref, Id>,               // those made for the A-zone, with their server id
    profiles: map<ProfileRef, Profile>,
    config: map<Id, Ref>,              // configState.Servers
    live: map<Inst, Ref>,              // instances created and not closed, with the object they are for
    created: set<Inst>)

  function Active(s: Store, r: Ref): bool
    requires r in s.objs && s.objs[r].profile in s.profiles
  {
    s.profiles[s.objs[r].profile].active
  }

  function SetActive(s: Store, r: Ref, active: bool): Store
    requires r in s.objs && s.objs[r].profile in s.profiles
  {
    var p := s.objs[r].profile;
    s.(profiles := s.profiles[p := s.profiles[p].(active := active)])
  }

  // --- manageInstances ---

  datatype Outcome = CreateFails | InitFails(inst: Inst) | Starts(inst: Inst)

  ghost predicate WellFormed(s: Store) {
    && (forall id :: id in s.config ==> s.config[id] in s.azone && s.azone[s.config[id]] == id)
    && (forall r :: r in s.azone ==>
          r in s.objs && s.objs[r].profile in s.profiles && s.profiles[s.objs[r].profile].owner == r)
  }

  predicate InConfig(s: Store, r: Ref) {
    r in s.azone && s.azone[r] in s.config && s.config[s.azone[r]] == r
  }

  /** The live instances are exactly those that configState refers to, each from one place. */
  ghost predicate Referenced(s: Store)
    requires WellFormed(s)
  {
    && (forall r :: InConfig(s, r) && s.objs[r].instance.Some? ==>
          s.objs[r].instance.value in s.live && s.live[s.objs[r].instance.value] == r)
    && (forall i :: i in s.live ==> i in s.created && InConfig(s, s.live[i]) && s.objs[s.live[i]].instance == Some(i))
  }

  ghost predicate Sound(s: Store) {
    WellFormed(s) && Referenced(s)
  }

  /** What each release of the lock leaves behind. */
  ghost predicate Settled(s: Store)
    requires WellFormed(s)
  {
    forall r :: InConfig(s, r) ==> (Active(s, r) <==> s.objs[r].instance.Some?)
  }

  /** Closes the instance of an object, if it has one. */
  function CloseOne(s: Store, r: Ref): Store {
    if r !in s.objs || s.objs[r].instance.None? then s
    else s.(objs := s.objs[r := s.objs[r].(instance := None)], live := s.live - {s.objs[r].instance.value})
  }

  /** Gives an object a new, initialised instance. */
  function RunOne(s: Store, r: Ref, i: Inst): Store
    requires r in s.objs
  {
    s.(objs := s.objs[r := s.objs[r].(instance := Some(i), health := Up)],
       live := s.live[i := r], created := s.created + {i})
  }

  /** The body of the first loop: a deactivated server loses its instance. */
  function StopOne(s: Store, r: Ref): Store {
    if r in s.objs && s.objs[r].profile in s.profiles && !Active(s, r) then CloseOne(s, r) else s
  }

  /** The body of the second loop: an active server without instance gets one, or is deactivated. */
  function StartOne(s: Store, r: Ref, o: Outcome): Store {
    if r !in s.objs || s.objs[r].profile !in s.profiles || !Active(s, r) || s.objs[r].instance.Some? then s
    else
      match o
      case CreateFails => SetActive(s, r, false)
      case InitFails(i) => SetActive(s, r, false).(created := s.created + {i})
      case Starts(i) => RunOne(s, r, i)
  }

  function StopAll(s: Store, order: seq<Ref>): Store
    decreases |order|
  {
    if order == [] then s else StopAll(StopOne(s, order[0]), order[1..])
  }

  function StartAll(s: Store, order: seq<Ref>, outs: seq<Outcome>): Store
    requires |order| == |outs|
    decreases |order|
  {
    if order == [] then s else StartAll(StartOne(s, order[0], outs[0]), order[1..], outs[1..])
  }

  /** Two passes over the map, each in an order of its own, and how the starts turn out. */
  datatype Visit = Visit(stops: seq<Ref>, starts: seq<Ref>, outs: seq<Outcome>)

  function Manage(s: Store, v: Visit): Store
    requires |v.starts| == |v.outs|
  {
    StartAll(StopAll(s, v.stops), v.starts, v.outs)
  }

  ghost predicate Covers(s: Store, order: seq<Ref>) {
    && (forall r :: r in order ==> InConfig(s, r))
    && (forall r :: InConfig(s, r) ==> r in order)
  }

  ghost predicate NewInstances(created: set<Inst>, outs: seq<Outcome>) {
    && (forall i :: 0 <= i < |outs| && !outs[i].CreateFails? ==> outs[i].inst !in created)
    && (forall i, j :: 0 <= i < j < |outs| && !outs[i].CreateFails? && !outs[j].CreateFails? ==> outs[i].inst != outs[j].inst)
  }

  ghost predicate ValidVisit(s: Store, v: Visit) {
    |v.starts| == |v.outs| && Covers(s, v.stops) && Covers(s, v.starts) && NewInstances(s.created, v.outs)
  }

  /** Only instances, health and Active flags of A-zone objects may have changed. */
  ghost predicate SameShape(s: Store, s': Store) {
    && s'.config == s.config && s'.azone == s.azone
    && s'.profiles.Keys == s.profiles.Keys && s'.objs.Keys == s.objs.Keys && s.created <= s'.created
    && (forall r :: r in s.objs ==> s'.objs[r].profile == s.objs[r].profile && s'.objs[r].metrics == s.objs[r].metrics)
    && (forall r :: r in s.objs && r !in s.azone ==> s'.objs[r] == s.objs[r])
  }

  /** An instance only where the server is active. */
  ghost predicate NoStray(s: Store, r: Ref)
    requires WellFormed(s) && r in s.azone
  {
    s.objs[r].instance.Some? ==> Active(s, r)
  }

  ghost predicate Ok(s: Store, r: Ref)
    requires WellFormed(s) && r in s.azone
  {
    Active(s, r) <==> s.objs[r].instance.Some?
  }

  lemma CloseOneSound(s: Store, r: Ref)
    requires Sound(s) && InConfig(s, r)
    ensures Sound(CloseOne(s, r)) && SameShape(s, CloseOne(s, r))
  {
  }

  lemma SetActiveSound(s: Store, r: Ref, active: bool)
    requires Sound(s) && r in s.azone
    ensures Sound(SetActive(s, r, active)) && SameShape(s, SetActive(s, r, active))
    ensures forall q :: q in s.azone && q != r ==> Active(SetActive(s, r, active), q) == Active(s, q)
    ensures Active(SetActive(s, r, active), r) == active
  {
  }

  lemma RunOneSound(s: Store, r: Ref, i: Inst)
    requires Sound(s) && InConfig(s, r) && s.objs[r].instance.None? && i !in s.created
    ensures Sound(RunOne(s, r, i)) && SameShape(s, RunOne(s, r, i))
  {
  }

  lemma StopOneSound(s: Store, r: Ref)
    requires Sound(s) && InConfig(s, r)
    ensures Sound(StopOne(s, r)) && SameShape(s, StopOne(s, r)) && NoStray(StopOne(s, r), r)
    ensures StopOne(s, r).created == s.created && StopOne(s, r).profiles == s.profiles
    ensures forall q :: q in s.azone && NoStray(s, q) ==> NoStray(StopOne(s, r), q)
    ensures forall q :: q in s.azone && Ok(s, q) ==> StopOne(s, r).objs[q] == s.objs[q]
  {
    CloseOneSound(s, r);
  }

  lemma StartOneSound(s: Store, r: Ref, o: Outcome)
    requires Sound(s) && InConfig(s, r) && (o.CreateFails? || o.inst !in s.created)
    ensures Sound(StartOne(s, r, o)) && SameShape(s, StartOne(s, r, o))
    ensures StartOne(s, r, o).created <= s.created + if o.CreateFails? then {} else {o.inst}
  {
    SetActiveSound(s, r, false);
    if o.Starts? && s.objs[r].instance.None? {
      RunOneSound(s, r, o.inst);
    }
  }

  lemma StartOneOk(s: Store, r: Ref, o: Outcome, q: Ref)
    requires WellFormed(s) && WellFormed(StartOne(s, r, o)) && StartOne(s, r, o).azone == s.azone
    requires r in s.azone && q in s.azone && NoStray(s, q)
    ensures NoStray(StartOne(s, r, o), q)
    ensures q == r || Ok(s, q) ==> Ok(StartOne(s, r, o), q)
  {
  }

  lemma {:induction false} StopAllSound(s: Store, order: seq<Ref>)
    requires Sound(s) && forall r :: r in order ==> InConfig(s, r)
    ensures var s' := StopAll(s, order);
            && Sound(s') && SameShape(s, s') && s'.created == s.created
            && (forall r :: r in order ==> NoStray(s', r))
            && (forall q :: q in s.azone && NoStray(s, q) ==> NoStray(s', q))
    decreases |order|
  {
    if order == [] {
    } else {
      StopOneSound(s, order[0]);
      StopAllSound(StopOne(s, order[0]), order[1..]);
      assert forall r :: r in order ==> r == order[0] || r in order[1..];
    }
  }

  lemma {:induction false} StartAllSound(s: Store, order: seq<Ref>, outs: seq<Outcome>)
    requires Sound(s) && |order| == |outs| && NewInstances(s.created, outs)
    requires forall r :: r in order ==> InConfig(s, r)
    requires forall r :: InConfig(s, r) ==> NoStray(s, r)
    ensures var s' := StartAll(s, order, outs);
            && Sound(s') && SameShape(s, s')
            && (forall r :: r in order ==> Ok(s', r))
            && (forall q :: InConfig(s, q) && Ok(s, q) ==> Ok(s', q))
    decreases |order|
  {
    if order == [] {
    } else {
      var s1 := StartOne(s, order[0], outs[0]);
      StartOneSound(s, order[0], outs[0]);
      forall q | InConfig(s, q)
        ensures NoStray(s1, q) && (q == order[0] || Ok(s, q) ==> Ok(s1, q))
      {
        StartOneOk(s, order[0], outs[0], q);
      }
      assert NewInstances(s1.created, outs[1..]);
      assert forall r :: r in order[1..] ==> r in order;
      StartAllSound(s1, order[1..], outs[1..]);
      assert forall r :: r in order ==> r == order[0] || r in order[1..];
    }
  }

  lemma SameShapeTrans(s: Store, s1: Store, s2: Store)
    requires SameShape(s, s1) && SameShape(s1, s2)
    ensures SameShape(s, s2)
  {
  }

  /** Whatever the iteration orders and the failures, afterwards Active means having an instance. */
  lemma ManageSettles(s: Store, v: Visit)
    requires Sound(s) && ValidVisit(s, v)
    ensures Sound(Manage(s, v)) && SameShape(s, Manage(s, v)) && Settled(Manage(s, v))
  {
    hide Referenced;
    hide NewInstances;
    hide StopAll;
    hide StartAll;
    StopAllSound(s, v.stops);
    var s1 := StopAll(s, v.stops);
    assert forall r :: InConfig(s1, r) <==> InConfig(s, r);
    StartAllSound(s1, v.starts, v.outs);
    var s2 := StartAll(s1, v.starts, v.outs);
    assert s2 == Manage(s, v);
    SameShapeTrans(s, s1, s2);
    forall r | InConfig(s2, r)
      ensures Ok(s2, r)
    {
      assert InConfig(s, r);
      assert r in v.starts;
    }
  }

  /** The two loops of manageInstances, each visiting the servers in the order the map yields them. */
  method ManageInstances(s: Store, v: Visit) returns (r: Store)
    requires |v.starts| == |v.outs|
    ensures r == Manage(s, v)
  {
    r := s;
    for i := 0 to |v.stops|
      invariant StopAll(s, v.stops) == StopAll(r, v.stops[i..])
    {
      assert v.stops[i..][1..] == v.stops[i + 1..];
      r := StopOne(r, v.stops[i]);
    }
    ghost var stopped := r;
    for i := 0 to |v.starts|
      invariant StartAll(stopped, v.starts, v.outs) == StartAll(r, v.starts[i..], v.outs[i..])
    {
      assert v.starts[i..][1..] == v.starts[i + 1..] && v.outs[i..][1..] == v.outs[i + 1..];
      r := StartOne(r, v.starts[i], v.outs[i]);
    }
  }
}
