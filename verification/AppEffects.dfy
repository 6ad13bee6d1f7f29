/**
 What the edits of AppServer do, beyond keeping it in order: each has its effect on its own server,
 and no edit stops, restarts or switches any other.
 */
module AppEffects {
  import opened Wrappers
  import opened AppServer
  import opened AppRuns

  /** The object and its Active flag are as they were. */
  ghost predicate Same(s: Store, s': Store, q: Ref) {
    && Known(s, q) && Known(s', q)
    && s'.objs[q] == s.objs[q] && Active(s', q) == Active(s, q)
  }

  // --- manageInstances, seen from one server ---

  lemma StopOneSame(s: Store, r: Ref, q: Ref)
    requires Sound(s) && InConfig(s, r) && q in s.azone && (q == r ==> NoStray(s, q))
    ensures Same(s, StopOne(s, r), q)
  {
  }

  lemma StartOneSame(s: Store, r: Ref, o: Outcome, q: Ref)
    requires WellFormed(s) && InConfig(s, r) && q in s.azone && (q == r ==> Ok(s, q))
    ensures Same(s, StartOne(s, r, o), q)
  {
  }

  lemma {:induction false} StopAllSame(s: Store, order: seq<Ref>, q: Ref)
    requires Sound(s) && q in s.azone && NoStray(s, q) && forall r :: r in order ==> InConfig(s, r)
    ensures Same(s, StopAll(s, order), q)
    decreases |order|
  {
    if order == [] {
    } else {
      StopOneSound(s, order[0]);
      StopOneSame(s, order[0], q);
      assert forall r :: r in order[1..] ==> r in order;
      StopAllSame(StopOne(s, order[0]), order[1..], q);
    }
  }

  lemma {:induction false} StopAllFlags(s: Store, order: seq<Ref>)
    requires Sound(s) && forall r :: r in order ==> InConfig(s, r)
    ensures StopAll(s, order).profiles == s.profiles
    ensures forall q :: q in s.objs ==> q in StopAll(s, order).objs && StopAll(s, order).objs[q].health == s.objs[q].health
    decreases |order|
  {
    if order == [] {
    } else {
      StopOneSound(s, order[0]);
      assert forall r :: r in order[1..] ==> r in order;
      StopAllFlags(StopOne(s, order[0]), order[1..]);
    }
  }

  /** What one turn of the second loop leaves for the next turns. */
  lemma StartStep(s: Store, order: seq<Ref>, outs: seq<Outcome>)
    requires Sound(s) && |order| == |outs| > 0 && NewInstances(s.created, outs)
    requires forall r :: r in order ==> InConfig(s, r)
    ensures var s1 := StartOne(s, order[0], outs[0]);
            && Sound(s1) && SameShape(s, s1) && NewInstances(s1.created, outs[1..])
            && forall r :: r in order[1..] ==> InConfig(s1, r)
  {
    StartOneSound(s, order[0], outs[0]);
    assert forall r :: r in order[1..] ==> r in order;
  }

  lemma {:induction false} StartAllSame(s: Store, order: seq<Ref>, outs: seq<Outcome>, q: Ref)
    requires Sound(s) && q in s.azone && Ok(s, q) && |order| == |outs| && NewInstances(s.created, outs)
    requires forall r :: r in order ==> InConfig(s, r)
    ensures Same(s, StartAll(s, order, outs), q)
    decreases |order|
  {
    if order == [] {
    } else {
      StartStep(s, order, outs);
      StartOneSame(s, order[0], outs[0], q);
      hide Sound;
      hide NewInstances;
      hide StartOne;
      StartAllSame(StartOne(s, order[0], outs[0]), order[1..], outs[1..], q);
    }
  }

  /** The server runs the instance of that outcome, or is inactive because it was a failure. */
  ghost predicate Turned(s: Store, r: Ref, o: Outcome) {
    && Known(s, r)
    && (Active(s, r), s.objs[r].instance) == (o.Starts?, if o.Starts? then Some(o.inst) else None)
    && (o.Starts? ==> s.objs[r].health == Up)
  }

  /** How the start of r turns out: the outcome at its first visit. */
  function OutcomeOf(order: seq<Ref>, outs: seq<Outcome>, r: Ref): Outcome
    requires |order| == |outs| && r in order
    decreases |order|
  {
    if order[0] == r then outs[0] else OutcomeOf(order[1..], outs[1..], r)
  }

  ghost predicate Started(s: Store, r: Ref, order: seq<Ref>, outs: seq<Outcome>)
    requires |order| == |outs|
  {
    r in order && Turned(s, r, OutcomeOf(order, outs, r))
  }

  /** So it turned out; only a start that succeeds changes the health. */
  ghost predicate StartedFrom(s: Store, s': Store, r: Ref, v: Visit)
    requires |v.starts| == |v.outs| && r in s.objs
  {
    && Started(s', r, v.starts, v.outs)
    && (OutcomeOf(v.starts, v.outs, r).Starts? || s'.objs[r].health == s.objs[r].health)
  }

  lemma {:induction false} StartAllStarts(s: Store, order: seq<Ref>, outs: seq<Outcome>, r: Ref)
    requires Sound(s) && |order| == |outs| && NewInstances(s.created, outs)
    requires forall q :: q in order ==> InConfig(s, q)
    requires r in order && Active(s, r) && s.objs[r].instance == None
    ensures Started(StartAll(s, order, outs), r, order, outs)
    ensures !OutcomeOf(order, outs, r).Starts? ==> StartAll(s, order, outs).objs[r].health == s.objs[r].health
    decreases |order|
  {
    StartStep(s, order, outs);
    var s1 := StartOne(s, order[0], outs[0]);
    if order[0] == r {
      assert Turned(s1, r, outs[0]);
      StartAllSame(s1, order[1..], outs[1..], r);
      assert Turned(StartAll(s, order, outs), r, outs[0]);
    } else {
      StartOneSame(s, order[0], outs[0], r);
      hide Sound;
      hide NewInstances;
      hide StartOne;
      StartAllStarts(s1, order[1..], outs[1..], r);
    }
  }

  /** manageInstances leaves settled servers alone, stops an inactive one and starts an active one. */
  lemma ManageOne(s: Store, r: Ref, v: Visit)
    requires Sound(s) && InConfig(s, r) && ValidVisit(s, v)
    ensures forall q :: InConfig(s, q) && Ok(s, q) ==> Same(s, Manage(s, v), q)
    ensures !Active(s, r) ==> Turned(Manage(s, v), r, CreateFails) && Manage(s, v).objs[r].health == s.objs[r].health
    ensures Active(s, r) && s.objs[r].instance == None ==> StartedFrom(s, Manage(s, v), r, v)
  {
    StopAllSound(s, v.stops);
    StopAllFlags(s, v.stops);
    var s1 := StopAll(s, v.stops);
    assert forall q :: InConfig(s1, q) <==> InConfig(s, q);
    hide Referenced;
    hide NewInstances;
    hide StopAll;
    hide StartAll;
    forall q | InConfig(s, q) && Ok(s, q)
      ensures Same(s, Manage(s, v), q)
    {
      StopAllSame(s, v.stops, q);
      StartAllSame(s1, v.starts, v.outs, q);
    }
    if !Active(s, r) {
      assert Ok(s1, r);
      StartAllSame(s1, v.starts, v.outs, r);
    } else if s.objs[r].instance == None {
      StopAllSame(s, v.stops, r);
      StartAllStarts(s1, v.starts, v.outs, r);
    }
  }

  // --- the edits ---

  ghost predicate OthersSame(s: Store, s': Store, r: Ref) {
    forall q :: InConfig(s, q) && q != r ==> InConfig(s', q) && Same(s, s', q)
  }

  /** Switching a server starts or stops that one, and touches no other. */
  lemma SwitchEffect(s: Store, r: Ref, active: bool, v: Visit)
    requires Fine(s) && InConfig(s, r) && ValidVisit(s, v) && Active(s, r) != active
    ensures var s' := ApplyActive(s, r, active, v);
            && OthersSame(s, s', r)
            && Known(s, r)
            && if active then StartedFrom(s, s', r, v) else Turned(s', r, CreateFails) && s'.objs[r].health == s.objs[r].health
  {
    var s1 := SetActive(s, r, active);
    SetActiveSound(s, r, active);
    SameVisit(s, s1, v);
    ManageSettles(s1, v);
    ManageOne(s1, r, v);
    assert OthersSame(s, s1, r);
    hide Manage;
    SameTrans(s, s1, Manage(s1, v), r);
  }

  /** The profile is exchanged and the instance closed; nothing else changes. */
  lemma Exchanged(s: Store, r: Ref, p: ProfileRef)
    requires Fine(s) && InConfig(s, r) && p !in s.profiles
    ensures var s1 := Reprofile(s, r, p);
            var s2 := CloseOne(s1, r);
            && s1.objs[r].profile == p && OthersSame(s, s1, r)
            && Sound(s2) && OthersSame(s, s2, r) && InConfig(s2, r)
            && s2.config == s.config && s2.azone == s.azone && s2.created == s.created
            && s2.objs[r].profile == p && s2.objs[r].instance == None && Active(s2, r) == Active(s, r)
            && s2.objs[r].health == s.objs[r].health && s2.objs[r].metrics == s.objs[r].metrics
  {
    ReprofileSound(s, r, p);
    CloseOneSound(Reprofile(s, r, p), r);
  }

  lemma SameTrans(s: Store, s1: Store, s2: Store, r: Ref)
    requires WellFormed(s) && WellFormed(s1) && Settled(s) && s1.azone == s.azone && OthersSame(s, s1, r)
    requires s2.config == s1.config && s2.azone == s1.azone
    requires forall q :: InConfig(s1, q) && Ok(s1, q) ==> Same(s1, s2, q)
    ensures OthersSame(s, s2, r)
  {
    forall q | InConfig(s, q) && q != r
      ensures InConfig(s2, q) && Same(s, s2, q)
    {
      assert InConfig(s1, q) && Same(s, s1, q);
      assert Ok(s1, q);
    }
  }

  /** Updating a profile replaces it; a running server is started again with it, and no other is touched. */
  lemma UpdateEffect(s: Store, id: Id, p: ProfileRef, v: Visit)
    requires Fine(s) && id in s.config && p !in s.profiles && ValidVisit(s, v)
    ensures var s', r := UpdateServer(s, id, p, v), s.config[id];
            && OthersSame(s, s', r)
            && Known(s', r) && s'.objs[r].profile == p
            && Known(s, r)
            && if Active(s, r) then StartedFrom(s, s', r, v) else Turned(s', r, CreateFails) && s'.objs[r].health == s.objs[r].health
  {
    var r := s.config[id];
    assert InConfig(s, r) && (Active(s, r) <==> s.objs[r].instance.Some?);
    Exchanged(s, r, p);
    if Active(s, r) {
      var s2 := CloseOne(Reprofile(s, r, p), r);
      assert UpdateServer(s, id, p, v) == Manage(s2, v);
      hide UpdateServer;
      hide Reprofile;
      hide CloseOne;
      hide Manage;
      hide Referenced;
      hide OthersSame;
      SameVisit(s, s2, v);
      ManageSettles(s2, v);
      ManageOne(s2, r, v);
      SameTrans(s, s2, Manage(s2, v), r);
      assert WellFormed(Manage(s2, v)) && r in Manage(s2, v).azone;
    }
  }
}
