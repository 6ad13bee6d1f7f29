/**
 The sticky cache under concurrent dispatches and cleanup passes.

 The cache maps keys to record objects.  A step is one access to the sync.Map or to a record: a
 lookup is a load, a test and a renewal or a delete; a cleanup pass tests and deletes key by key
 against the time it began.  Any other step may come in between.
 */
module StickyRuns {
  import opened Wrappers
  import opened Sticky

  type RequestId = nat
  type PassId = nat
  type Ref = nat

  /** A StickyRecord object; the key it was stored under never changes. */
  datatype Entry = Entry(key: Key, server: ServerId, expiry: Time)

  /** How far a dispatch has come. */
  datatype Pc =
    | Loaded(ref: Ref)                        // has the record, has not tested it
    | Passed(ref: Ref, servers: Servers)      // the record is valid, not renewed yet
    | Dropping                                // the record is not, about to delete its key
    | Balancing                               // no cached server, on its way to the balancer
    | Finished(result: Option<ServerId>)      // the server that Dispatch returned, or its error

  datatype Request = Request(key: Key, pc: Pc)

  /** A cleanup pass: when it began, and the key it found expired and has not deleted yet. */
  datatype Pass = Pass(now: Time, doomed: Option<Key>)

  datatype State = State(
    cache: map<Key, Ref>,
    records: map<Ref, Entry>,
    requests: map<RequestId, Request>,
    passes: map<PassId, Pass>,
    clock: Time)

  datatype Step =
    | Load(t: RequestId, key: Key)                                  // Get: cache.Load
    | Test(t: RequestId, key: Key, servers: Servers, now: Time)     // Get: expiry, then health
    | Drop(t: RequestId, key: Key)                                  // Get: cache.Delete
    | Renew(t: RequestId, key: Key, now: Time)                      // Get: Expiry; Dispatch: is there an instance?
    | Store(t: RequestId, key: Key, server: ServerId, ref: Ref, now: Time)  // the balancer's choice; Set
    | GiveUp(t: RequestId, key: Key)                                // the balancer has no choice
    | Begin(p: PassId, now: Time)                                   // cleanup: now := time.Now()
    | Visit(p: PassId, key: Key)                                    // cleanup: a record of the map is tested
    | Delete(p: PassId, key: Key)                                   // cleanup: cache.Delete
    | End(p: PassId)

  predicate At(s: State, t: RequestId, key: Key) {
    t in s.requests && s.requests[t].key == key
  }

  predicate Enabled(s: State, step: Step) {
    match step
    case Load(t, _) => t !in s.requests
    case Test(t, key, _, now) =>
      && At(s, t, key) && s.clock <= now && s.requests[t].pc.Loaded? && s.requests[t].pc.ref in s.records
    case Drop(t, key) => At(s, t, key) && s.requests[t].pc.Dropping?
    case Renew(t, key, now) =>
      && At(s, t, key) && s.clock <= now && s.requests[t].pc.Passed? && s.requests[t].pc.ref in s.records
    case Store(t, key, _, ref, now) =>
      At(s, t, key) && s.clock <= now && s.requests[t].pc.Balancing? && ref !in s.records
    case GiveUp(t, key) => At(s, t, key) && s.requests[t].pc.Balancing?
    case Begin(p, now) => p !in s.passes && s.clock <= now
    case Visit(p, key) => p in s.passes && s.passes[p].doomed.None? && key in s.cache && s.cache[key] in s.records
    case Delete(p, key) => p in s.passes && s.passes[p].doomed == Some(key)
    case End(p) => p in s.passes && s.passes[p].doomed.None?
  }

  function Move(s: State, t: RequestId, key: Key, pc: Pc): State {
    s.(requests := s.requests[t := Request(key, pc)])
  }

  function Next(s: State, step: Step, ttl: Time): State
    requires Enabled(s, step)
  {
    match step
    case Load(t, key) => Move(s, t, key, if key in s.cache then Loaded(s.cache[key]) else Balancing)
    case Test(t, key, servers, now) =>
      var ref := s.requests[t].pc.ref;
      var e := s.records[ref];
      var ok := now <= e.expiry && e.server in servers && servers[e.server].Healthy();
      Move(s, t, key, if ok then Passed(ref, servers) else Dropping).(clock := now)
    case Drop(t, key) => Move(s, t, key, Balancing).(cache := s.cache - {key})
    case Renew(t, key, now) =>
      var pc := s.requests[t].pc;
      var e := s.records[pc.ref];
      var answer := if Served(Found(e.server), pc.servers).Some? then Finished(Some(e.server)) else Balancing;
      Move(s, t, key, answer).(records := s.records[pc.ref := e.(expiry := now + ttl)], clock := now)
    case Store(t, key, server, ref, now) =>
      Move(s, t, key, Finished(Some(server))).(
        cache := s.cache[key := ref], records := s.records[ref := Entry(key, server, now + ttl)], clock := now)
    case GiveUp(t, key) => Move(s, t, key, Finished(None))
    case Begin(p, now) => s.(passes := s.passes[p := Pass(now, None)], clock := now)
    case Visit(p, key) =>
      if s.passes[p].now > s.records[s.cache[key]].expiry
      then s.(passes := s.passes[p := s.passes[p].(doomed := Some(key))])
      else s
    case Delete(p, key) =>
      s.(passes := s.passes[p := s.passes[p].(doomed := None)], cache := s.cache - {key})
    case End(p) => s.(passes := s.passes - {p})
  }

  /** Some cleanup pass has found the key expired and is about to delete it, whatever it holds by then. */
  ghost predicate Doomed(s: State, key: Key) {
    exists p :: p in s.passes && s.passes[p].doomed == Some(key)
  }

  /** Records are known and stay with their key; no pass began in the future. */
  ghost predicate Sane(s: State) {
    && (forall k :: k in s.cache ==> s.cache[k] in s.records && s.records[s.cache[k]].key == k)
    && (forall t :: t in s.requests && (s.requests[t].pc.Loaded? || s.requests[t].pc.Passed?) ==>
          s.requests[t].pc.ref in s.records && s.records[s.requests[t].pc.ref].key == s.requests[t].key)
    && (forall p :: p in s.passes ==> s.passes[p].now <= s.clock)
  }

  lemma SaneNext(s: State, step: Step, ttl: Time)
    requires Sane(s) && Enabled(s, step)
    ensures Sane(Next(s, step, ttl))
  {
  }

  // --- a lookup on its own ---

  /** The cache as StickyManager sees it. */
  function Flat(s: State): Cache {
    map k | k in s.cache && s.cache[k] in s.records ::
      Record(s.records[s.cache[k]].server, s.records[s.cache[k]].expiry)
  }

  /** Load, test, and renew or drop. */
  function WholeLookup(s: State, t: RequestId, key: Key, servers: Servers, now: Time, later: Time, ttl: Time): (s': State)
    requires Sane(s) && t !in s.requests && s.clock <= now <= later
  {
    var s1 := Next(s, Load(t, key), ttl);
    if key !in s.cache then s1
    else
      var s2 := Next(s1, Test(t, key, servers, now), ttl);
      if s2.requests[t].pc.Passed? then Next(s2, Renew(t, key, later), ttl) else Next(s2, Drop(t, key), ttl)
  }

  /** Steps of a lookup touch no record of another key. */
  lemma FlatAway(s: State, s': State, key: Key)
    requires Sane(s) && forall k :: k != key ==> (k in s'.cache <==> k in s.cache)
    requires forall k :: k in s.cache && k != key ==> s'.cache[k] == s.cache[k]
    requires forall r :: r in s.records && s.records[r].key != key ==> r in s'.records && s'.records[r] == s.records[r]
    requires key in s'.cache ==> s'.cache[key] in s'.records
    ensures Flat(s') == (if key in s'.cache
                         then Flat(s)[key := Record(s'.records[s'.cache[key]].server, s'.records[s'.cache[key]].expiry)]
                         else Flat(s) - {key})
  {
  }

  lemma FlatAt(s: State, key: Key)
    requires Sane(s)
    ensures key in Flat(s) <==> key in s.cache
    ensures key in s.cache ==> Flat(s)[key] == Record(s.records[s.cache[key]].server, s.records[s.cache[key]].expiry)
  {
  }

  lemma FlatOf(s: State, s': State)
    requires s'.cache == s.cache && s'.records == s.records
    ensures Flat(s') == Flat(s)
  {
  }

  /** What is left behind by a lookup that nothing interrupts. */
  lemma WholeLookupLeaves(s: State, t: RequestId, key: Key, servers: Servers, now: Time, later: Time, ttl: Time)
    requires Sane(s) && t !in s.requests && s.clock <= now <= later
    ensures var s' := WholeLookup(s, t, key, servers, now, later, ttl);
            if key !in s.cache then s' == Move(s, t, key, Balancing)
            else
              var e := s.records[s.cache[key]];
              if now <= e.expiry && e.server in servers && servers[e.server].Healthy() then
                && s'.cache == s.cache && s'.records == s.records[s.cache[key] := e.(expiry := later + ttl)]
                && t in s'.requests
                && s'.requests[t].pc == if Fit(servers, e.server) then Finished(Some(e.server)) else Balancing
              else
                s'.cache == s.cache - {key} && s'.records == s.records && t in s'.requests && s'.requests[t].pc == Balancing
  {
  }

  /** Without interruption the steps of a lookup do what the method Get does. */
  lemma LookupAlone(s: State, t: RequestId, key: Key, servers: Servers, now: Time, later: Time, ttl: Time)
    requires Sane(s) && t !in s.requests && s.clock <= now <= later
    ensures var s' := WholeLookup(s, t, key, servers, now, later, ttl);
            var look := Lookup(Flat(s), key, servers, now, later, ttl);
            && Flat(s') == look.0 && t in s'.requests
            && s'.requests[t].pc == if Served(look.1, servers).Some? then Finished(Served(look.1, servers)) else Balancing
  {
    WholeLookupLeaves(s, t, key, servers, now, later, ttl);
    FlatAt(s, key);
    hide WholeLookup;
    hide Flat;
    var s' := WholeLookup(s, t, key, servers, now, later, ttl);
    if key in s.cache {
      FlatAway(s, s', key);
    } else {
      FlatOf(s, s');
    }
    hide Sane;
  }

  // --- a cleanup pass on its own ---

  /** Test the keys one by one, and delete those that the test found expired. */
  function SweepKeys(s: State, p: PassId, keys: seq<Key>, ttl: Time): (s': State)
    requires Sane(s) && p in s.passes && s.passes[p].doomed.None?
    ensures Sane(s') && p in s'.passes && s'.passes[p].doomed.None?
    decreases |keys|
  {
    if keys == [] then s
    else if keys[0] !in s.cache then SweepKeys(s, p, keys[1..], ttl)
    else
      var s1 := Next(s, Visit(p, keys[0]), ttl);
      SweepKeys(if s1.passes[p].doomed.None? then s1 else Next(s1, Delete(p, keys[0]), ttl), p, keys[1..], ttl)
  }

  function WholeSweep(s: State, p: PassId, keys: seq<Key>, now: Time, ttl: Time): State
    requires Sane(s) && p !in s.passes && s.clock <= now
  {
    Next(SweepKeys(Next(s, Begin(p, now), ttl), p, keys, ttl), End(p), ttl)
  }

  lemma {:induction false} SweepLeaves(s: State, p: PassId, keys: seq<Key>, ttl: Time)
    requires Sane(s) && p in s.passes && s.passes[p].doomed.None?
    ensures var s' := SweepKeys(s, p, keys, ttl);
            && s'.records == s.records && s'.requests == s.requests
            && s'.cache == map k | k in s.cache && !(k in keys && s.passes[p].now > s.records[s.cache[k]].expiry) :: s.cache[k]
    decreases |keys|
  {
    if keys == [] {
    } else {
      var s1 := if keys[0] in s.cache then Next(s, Visit(p, keys[0]), ttl) else s;
      var s2 := if s1.passes[p].doomed.None? then s1 else Next(s1, Delete(p, keys[0]), ttl);
      assert s2.passes == s.passes;
      SweepLeaves(s2, p, keys[1..], ttl);
    }
  }

  /** Without interruption a pass over all keys, in any order, does what the method Cleanup does. */
  lemma SweepAlone(s: State, p: PassId, keys: seq<Key>, now: Time, ttl: Time)
    requires Sane(s) && p !in s.passes && s.clock <= now && forall k :: k in s.cache ==> k in keys
    ensures Flat(WholeSweep(s, p, keys, now, ttl)) == Expire(Flat(s), now)
    ensures WholeSweep(s, p, keys, now, ttl).requests == s.requests
  {
    var s1 := Next(s, Begin(p, now), ttl);
    SweepLeaves(s1, p, keys, ttl);
  }

  // --- runs ---

  ghost predicate Run(steps: seq<Step>, states: seq<State>, ttl: Time) {
    && |states| == |steps| + 1 && Sane(states[0])
    && forall i :: 0 <= i < |steps| ==> Enabled(states[i], steps[i]) && states[i + 1] == Next(states[i], steps[i], ttl)
  }

  /** s' comes out of s by this step. */
  ghost predicate Follow(s: State, step: Step, s': State, ttl: Time) {
    Enabled(s, step) && s' == Next(s, step, ttl)
  }

  lemma LoadFollows(s: State, t: RequestId, key: Key, ttl: Time)
    requires t !in s.requests
    ensures Follow(s, Load(t, key), Move(s, t, key, if key in s.cache then Loaded(s.cache[key]) else Balancing), ttl)
  {
  }

  lemma TestFollows(s: State, t: RequestId, key: Key, ref: Ref, servers: Servers, now: Time, ttl: Time)
    requires t in s.requests && s.requests[t] == Request(key, Loaded(ref)) && ref in s.records
    requires s.clock <= now <= s.records[ref].expiry && Fit(servers, s.records[ref].server)
    ensures Follow(s, Test(t, key, servers, now), Move(s, t, key, Passed(ref, servers)).(clock := now), ttl)
  {
  }

  lemma RenewFollows(s: State, t: RequestId, key: Key, ref: Ref, servers: Servers, now: Time, ttl: Time)
    requires t in s.requests && s.requests[t] == Request(key, Passed(ref, servers)) && ref in s.records
    requires s.clock <= now && Fit(servers, s.records[ref].server)
    ensures Follow(s, Renew(t, key, now),
                   Move(s, t, key, Finished(Some(s.records[ref].server))).(
                     records := s.records[ref := s.records[ref].(expiry := now + ttl)], clock := now), ttl)
  {
  }

  lemma StoreFollows(s: State, t: RequestId, key: Key, server: ServerId, ref: Ref, now: Time, ttl: Time)
    requires t in s.requests && s.requests[t] == Request(key, Balancing) && ref !in s.records && s.clock <= now
    ensures Follow(s, Store(t, key, server, ref, now),
                   Move(s, t, key, Finished(Some(server))).(
                     cache := s.cache[key := ref], records := s.records[ref := Entry(key, server, now + ttl)], clock := now), ttl)
  {
  }

  /** A whole cleanup of one expired key, up to its delete. */
  lemma SweepFollows(s: State, p: PassId, key: Key, now: Time, ttl: Time)
    requires p !in s.passes && key in s.cache && s.cache[key] in s.records
    requires s.clock <= now && now > s.records[s.cache[key]].expiry
    ensures var s1 := s.(passes := s.passes[p := Pass(now, None)], clock := now);
            var s2 := s1.(passes := s1.passes[p := Pass(now, Some(key))]);
            Follow(s, Begin(p, now), s1, ttl) && Follow(s1, Visit(p, key), s2, ttl)
  {
  }

  lemma DeleteFollows(s: State, p: PassId, key: Key, now: Time, ttl: Time)
    requires p in s.passes && s.passes[p] == Pass(now, Some(key))
    ensures Follow(s, Delete(p, key), s.(passes := s.passes[p := Pass(now, None)], cache := s.cache - {key}), ttl)
  {
  }

  predicate Refreshes(step: Step, key: Key) {
    (step.Renew? || step.Store?) && step.key == key
  }

  /** When a record of the key was last renewed or stored; at `start`, if never since. */
  function Renewed(steps: seq<Step>, key: Key, start: Time): Time {
    if steps == [] then start
    else if Refreshes(steps[|steps| - 1], key) then steps[|steps| - 1].now
    else Renewed(steps[..|steps| - 1], key, start)
  }

  /** A request of the key is loaded and tested before the deadline, and its server can take it. */
  predicate InTime(s: State, step: Step, key: Key, deadline: Time)
    requires Enabled(s, step)
  {
    && (step.Load? && step.key == key ==> s.clock <= deadline)
    && (step.Test? && step.key == key ==>
          step.now <= deadline && Fit(step.servers, s.records[s.requests[step.t].pc.ref].server))
  }

  /** Requests of the key keep coming within the TTL of the latest renewal, and find their server fit. */
  ghost predicate Timely(steps: seq<Step>, states: seq<State>, key: Key, start: Time, ttl: Time)
    requires Run(steps, states, ttl)
  {
    forall i :: 0 <= i < |steps| ==> InTime(states[i], steps[i], key, Renewed(steps[..i], key, start) + ttl)
  }

  /** A record keeps its key and its server. */
  lemma ServerStays(s: State, step: Step, ttl: Time, r: Ref)
    requires Enabled(s, step) && r in s.records
    ensures var s' := Next(s, step, ttl);
            r in s'.records && s'.records[r].server == s.records[r].server && s'.records[r].key == s.records[r].key
  {
  }

  lemma PassedNext(s: State, step: Step, ttl: Time, t: RequestId)
    requires Enabled(s, step) && t in Next(s, step, ttl).requests && Next(s, step, ttl).requests[t].pc.Passed?
    ensures var s' := Next(s, step, ttl);
            var pc := s'.requests[t].pc;
            if step.Test? && step.t == t
            then Vouches(s, step, t, pc.ref, pc.servers) && pc.ref in s'.records &&
                 s'.records[pc.ref].server == s.records[pc.ref].server
            else t in s.requests && s.requests[t] == s'.requests[t]
  {
  }

  /** At step d request t found the record in time and its server active and up. */
  predicate Vouches(s: State, step: Step, t: RequestId, ref: Ref, servers: Servers) {
    && step.Test? && step.t == t && step.servers == servers && ref in s.records && step.now <= s.records[ref].expiry
    && s.records[ref].server in servers && servers[s.records[ref].server].active && servers[s.records[ref].server].up
  }

  lemma {:induction false} TestedBefore(steps: seq<Step>, states: seq<State>, ttl: Time, n: nat, t: RequestId) returns (d: nat)
    requires Run(steps, states, ttl) && n < |states| && t !in states[0].requests
    requires t in states[n].requests && states[n].requests[t].pc.Passed?
    ensures var pc := states[n].requests[t].pc;
            && d < n && Vouches(states[d], steps[d], t, pc.ref, pc.servers) && pc.ref in states[n].records
            && states[d].records[pc.ref].server == states[n].records[pc.ref].server
  {
    hide Next;
    hide Enabled;
    hide Vouches;
    hide Sane;
    assert n > 0;
    var ref := states[n].requests[t].pc.ref;
    PassedNext(states[n - 1], steps[n - 1], ttl, t);
    if steps[n - 1].Test? && steps[n - 1].t == t {
      d := n - 1;
    } else {
      d := TestedBefore(steps, states, ttl, n - 1, t);
      ServerStays(states[n - 1], steps[n - 1], ttl, ref);
    }
  }

  /**
   Over every run a request that is answered out of the cache gets a server whose record was in time
   when the request tested it, and which was then active, up and listening.
   */
  lemma AnswersAreValid(steps: seq<Step>, states: seq<State>, ttl: Time, n: nat, server: ServerId) returns (d: nat)
    requires Run(steps, states, ttl) && n < |steps| && steps[n].Renew? && steps[n].t !in states[0].requests
    requires states[n + 1].requests[steps[n].t].pc == Finished(Some(server))
    ensures d < n && steps[d].Test? && steps[d].t == steps[n].t
    ensures server in steps[d].servers && steps[d].servers[server].active && steps[d].servers[server].up &&
            steps[d].servers[server].listener.Some?
    ensures exists ref :: ref in states[d].records && states[d].records[ref].server == server &&
                          steps[d].now <= states[d].records[ref].expiry
  {
    assert Enabled(states[n], steps[n]) && states[n + 1] == Next(states[n], steps[n], ttl);
    d := TestedBefore(steps, states, ttl, n, steps[n].t);
  }

  /** A request that holds a record of the key. */
  predicate Holding(s: State, t: RequestId, key: Key) {
    At(s, t, key) && (s.requests[t].pc.Loaded? || s.requests[t].pc.Passed?)
  }

  /**
   A renewal that comes too late: its record has left the cache, or a cleanup pass is about to
   delete the key.  And a store that comes too early: some request still holds the record it replaces.
   */
  ghost predicate Overtaken(s: State, step: Step, key: Key)
    requires Enabled(s, step)
  {
    && Refreshes(step, key)
    && (|| Doomed(s, key)
        || (step.Renew? && !(key in s.cache && s.cache[key] == s.requests[step.t].pc.ref))
        || (step.Store? && exists t :: Holding(s, t, key)))
  }

  // --- the record stands until its deadline ---

  /** ref is the record of the key; it leaves the cache, or is about to, only when its time is over. */
  ghost predicate Firm(s: State, key: Key, ref: Ref, expiry: Time) {
    && Sane(s)
    && ref in s.records && s.records[ref].key == key && s.records[ref].expiry == expiry
    && (key in s.cache ==> s.cache[key] == ref)
    && (key !in s.cache || Doomed(s, key) ==> s.clock > expiry)
    && (forall t :: At(s, t, key) ==> Good(s.requests[t].pc, ref, s.records[ref].server))
  }

  /** No test has failed, and the server is one that can take the request. */
  predicate Good(pc: Pc, ref: Ref, server: ServerId) {
    match pc
    case Loaded(r) => r == ref
    case Passed(r, servers) => r == ref && Fit(servers, server)
    case Dropping => false
    case _ => true
  }

  /** The record of the key and its expiry after a step. */
  function After(step: Step, key: Key, ref: Ref, expiry: Time, ttl: Time): (Ref, Time) {
    if !Refreshes(step, key) then (ref, expiry)
    else (if step.Store? then step.ref else ref, step.now + ttl)
  }

  lemma DoomedNext(s: State, step: Step, ttl: Time, key: Key)
    requires Enabled(s, step) && Doomed(Next(s, step, ttl), key)
    ensures Doomed(s, key) || (step.Visit? && step.key == key && s.passes[step.p].now > s.records[s.cache[key]].expiry)
  {
    var s' := Next(s, step, ttl);
    var p :| p in s'.passes && s'.passes[p].doomed == Some(key);
    assert p in s.passes && (s.passes[p].doomed == Some(key) || step.Visit?);
  }

  /** While requests are in time and no renewal is overtaken, the record stands. */
  lemma FirmNext(s: State, step: Step, ttl: Time, key: Key, ref: Ref, expiry: Time)
    requires Firm(s, key, ref, expiry) && Enabled(s, step) && InTime(s, step, key, expiry) && !Overtaken(s, step, key)
    ensures var (ref', expiry') := After(step, key, ref, expiry, ttl);
            Firm(Next(s, step, ttl), key, ref', expiry')
  {
    SaneNext(s, step, ttl);
    var s' := Next(s, step, ttl);
    if Doomed(s', key) {
      DoomedNext(s, step, ttl, key);
    }
    if step.Delete? && step.key == key {
      assert Doomed(s, key);
    }
    var (ref', expiry') := After(step, key, ref, expiry, ttl);
    forall t | At(s', t, key)
      ensures Good(s'.requests[t].pc, ref', s'.records[ref'].server)
    {
      assert step.Store? && step.key == key ==> !Holding(s, t, key);
      assert At(s, t, key) ==> Good(s.requests[t].pc, ref, s.records[ref].server);
    }
  }

  /** One step of a request while the record stands: only a store or giving up comes from the balancer. */
  lemma RequestNext(s: State, step: Step, ttl: Time, key: Key, ref: Ref, expiry: Time, t: RequestId)
    requires Firm(s, key, ref, expiry) && Enabled(s, step) && InTime(s, step, key, expiry) && !Overtaken(s, step, key)
    requires At(Next(s, step, ttl), t, key)
    ensures var pc := Next(s, step, ttl).requests[t].pc;
            && !pc.Dropping? && (pc.Balancing? ==> At(s, t, key) && s.requests[t].pc.Balancing?)
            && (pc.Finished? ==>
                  || (At(s, t, key) && (s.requests[t].pc.Balancing? || s.requests[t].pc == pc))
                  || pc.result == Some(s.records[ref].server))
  {
    assert At(s, t, key) ==> Good(s.requests[t].pc, ref, s.records[ref].server);
  }

  /** The record of the key after some steps: that of the latest store. */
  function RefAfter(steps: seq<Step>, key: Key, ref: Ref): Ref {
    if steps == [] then ref
    else
      var last := steps[|steps| - 1];
      if last.Store? && last.key == key then last.ref else RefAfter(steps[..|steps| - 1], key, ref)
  }

  /** No renewal and no store of the key before step n is overtaken. */
  ghost predicate Unhindered(steps: seq<Step>, states: seq<State>, ttl: Time, n: nat, key: Key)
    requires Run(steps, states, ttl) && n <= |steps|
  {
    forall i :: 0 <= i < n ==> !Overtaken(states[i], steps[i], key)
  }

  lemma {:induction false} AlwaysFirm(steps: seq<Step>, states: seq<State>, ttl: Time, n: nat, key: Key, ref: Ref, start: Time)
    requires Run(steps, states, ttl) && n <= |steps| && Timely(steps, states, key, start, ttl)
    requires Firm(states[0], key, ref, start + ttl) && Unhindered(steps, states, ttl, n, key)
    ensures Firm(states[n], key, RefAfter(steps[..n], key, ref), Renewed(steps[..n], key, start) + ttl)
  {
    hide Next;
    hide Enabled;
    hide Firm;
    hide Overtaken;
    hide InTime;
    if n == 0 {
      assert steps[..0] == [];
    } else {
      AlwaysFirm(steps, states, ttl, n - 1, key, ref, start);
      assert steps[..n][..n - 1] == steps[..n - 1];
      FirmNext(states[n - 1], steps[n - 1], ttl, key, RefAfter(steps[..n - 1], key, ref),
               Renewed(steps[..n - 1], key, start) + ttl);
    }
  }

  /** Who is on the way to the balancer now was so at the start. */
  lemma {:induction false} NobodyTurnsAway(steps: seq<Step>, states: seq<State>, ttl: Time, n: nat, key: Key, ref: Ref, start: Time, t: RequestId)
    requires Run(steps, states, ttl) && n <= |steps| && Timely(steps, states, key, start, ttl)
    requires Firm(states[0], key, ref, start + ttl) && Unhindered(steps, states, ttl, n, key)
    requires At(states[n], t, key) && states[n].requests[t].pc.Balancing?
    ensures At(states[0], t, key) && states[0].requests[t].pc.Balancing?
  {
    hide Next;
    hide Enabled;
    hide Firm;
    hide Overtaken;
    hide InTime;
    if n == 0 {
    } else {
      AlwaysFirm(steps, states, ttl, n - 1, key, ref, start);
      RequestNext(states[n - 1], steps[n - 1], ttl, key, RefAfter(steps[..n - 1], key, ref),
                  Renewed(steps[..n - 1], key, start) + ttl, t);
      NobodyTurnsAway(steps, states, ttl, n - 1, key, ref, start, t);
    }
  }

  /**
   Once a record stands, a second store of its key comes only from a request that was on its way to
   the balancer already when the record was stored.
   */
  lemma SecondStore(steps: seq<Step>, states: seq<State>, ttl: Time, n: nat, key: Key, ref: Ref, start: Time)
    requires Run(steps, states, ttl) && n < |steps| && Timely(steps, states, key, start, ttl)
    requires Firm(states[0], key, ref, start + ttl) && Unhindered(steps, states, ttl, n, key)
    requires steps[n].Store? && steps[n].key == key
    ensures At(states[0], steps[n].t, key) && states[0].requests[steps[n].t].pc.Balancing?
  {
    NobodyTurnsAway(steps, states, ttl, n, key, ref, start, steps[n].t);
  }

  /** A record stands and no request of its key is on the way to the balancer. */
  ghost predicate Standing(s: State, key: Key, ref: Ref, server: ServerId, expiry: Time) {
    && Firm(s, key, ref, expiry) && s.records[ref].server == server
    && forall t :: At(s, t, key) ==> !s.requests[t].pc.Balancing?
  }

  lemma {:induction false} NoStore(steps: seq<Step>, states: seq<State>, ttl: Time, n: nat, key: Key, ref: Ref, server: ServerId, start: Time)
    requires Run(steps, states, ttl) && n <= |steps| && Timely(steps, states, key, start, ttl)
    requires Standing(states[0], key, ref, server, start + ttl) && Unhindered(steps, states, ttl, n, key)
    ensures RefAfter(steps[..n], key, ref) == ref && ref in states[n].records && states[n].records[ref].server == server
  {
    if n == 0 {
      assert steps[..0] == [];
    } else {
      NoStore(steps, states, ttl, n - 1, key, ref, server, start);
      assert steps[..n][..n - 1] == steps[..n - 1];
      if steps[n - 1].Store? && steps[n - 1].key == key {
        SecondStore(steps, states, ttl, n - 1, key, ref, start);
        assert false;
      }
    }
  }

  /**
   Affinity.  While a record stands, requests of its key come within the TTL of the latest renewal
   and find the server fit, and no cleanup pass is about to delete the key at a renewal, every
   request of the key gets that server, whatever other requests, stores and cleanups do.
   */
  lemma {:induction false} Affinity(steps: seq<Step>, states: seq<State>, ttl: Time, n: nat, key: Key, ref: Ref,
                                    server: ServerId, start: Time, t: RequestId)
    requires Run(steps, states, ttl) && n <= |steps| && Timely(steps, states, key, start, ttl)
    requires Standing(states[0], key, ref, server, start + ttl) && Unhindered(steps, states, ttl, n, key)
    requires At(states[n], t, key) && !At(states[0], t, key)
    ensures var pc := states[n].requests[t].pc;
            !pc.Dropping? && !pc.Balancing? && (pc.Finished? ==> pc.result == Some(server))
  {
    hide Next;
    hide Enabled;
    hide Firm;
    hide Overtaken;
    hide InTime;
    if n == 0 {
    } else {
      NoStore(steps, states, ttl, n - 1, key, ref, server, start);
      AlwaysFirm(steps, states, ttl, n - 1, key, ref, start);
      RequestNext(states[n - 1], steps[n - 1], ttl, key, ref, Renewed(steps[..n - 1], key, start) + ttl, t);
      if At(states[n - 1], t, key) {
        Affinity(steps, states, ttl, n - 1, key, ref, server, start, t);
      }
    }
  }

  // --- and exactly when it does not ---

  /** The key is gone, or about to be. */
  ghost predicate Going(s: State, key: Key) {
    key !in s.cache || Doomed(s, key)
  }

  predicate StoresKey(step: Step, key: Key) {
    step.Store? && step.key == key
  }

  lemma GoingNext(s: State, step: Step, ttl: Time, key: Key)
    requires Going(s, key) && Enabled(s, step) && !StoresKey(step, key)
    ensures Going(Next(s, step, ttl), key)
  {
    var s' := Next(s, step, ttl);
    if key in s'.cache {
      var p :| p in s.passes && s.passes[p].doomed == Some(key);
      assert p in s'.passes && s'.passes[p].doomed == Some(key);
    }
  }

  lemma {:induction false} StaysGoing(steps: seq<Step>, states: seq<State>, ttl: Time, i: nat, n: nat, key: Key)
    requires Run(steps, states, ttl) && i <= n <= |steps| && Going(states[i], key)
    requires forall j :: 0 <= j < n ==> !StoresKey(steps[j], key)
    ensures Going(states[n], key)
    decreases n - i
  {
    hide Next;
    hide Enabled;
    hide Going;
    if i == n {
    } else {
      GoingNext(states[i], steps[i], ttl, key);
      StaysGoing(steps, states, ttl, i + 1, n, key);
    }
  }

  /** Without a store there is one record of the key at most. */
  ghost predicate OnlyRecord(s: State, key: Key, ref: Ref) {
    && (key in s.cache ==> s.cache[key] == ref)
    && (forall t :: Holding(s, t, key) ==> s.requests[t].pc.ref == ref)
  }

  lemma OnlyRecordNext(s: State, step: Step, ttl: Time, key: Key, ref: Ref)
    requires OnlyRecord(s, key, ref) && Enabled(s, step) && !StoresKey(step, key)
    ensures OnlyRecord(Next(s, step, ttl), key, ref)
  {
    var s' := Next(s, step, ttl);
    forall t | Holding(s', t, key)
      ensures s'.requests[t].pc.ref == ref
    {
      assert Holding(s, t, key) || step.Load?;
    }
  }

  lemma {:induction false} StaysOnly(steps: seq<Step>, states: seq<State>, ttl: Time, n: nat, key: Key, ref: Ref)
    requires Run(steps, states, ttl) && n <= |steps| && OnlyRecord(states[0], key, ref)
    requires forall j :: 0 <= j < n ==> !StoresKey(steps[j], key)
    ensures OnlyRecord(states[n], key, ref)
  {
    hide Next;
    hide Enabled;
    hide OnlyRecord;
    if n == 0 {
    } else {
      StaysOnly(steps, states, ttl, n - 1, key, ref);
      OnlyRecordNext(states[n - 1], steps[n - 1], ttl, key, ref);
    }
  }

  /**
   The exact condition.  A request in time misses a record that stood at the start, and was not
   stored again, if and only if an earlier renewal met a key that a cleanup pass had deleted or was
   about to delete (and the pass has carried that out).
   */
  lemma MissIff(steps: seq<Step>, states: seq<State>, ttl: Time, n: nat, key: Key, ref: Ref, server: ServerId, start: Time)
    requires Run(steps, states, ttl) && n < |steps| && Timely(steps, states, key, start, ttl)
    requires Standing(states[0], key, ref, server, start + ttl)
    requires steps[n].Load? && steps[n].key == key && !Doomed(states[n], key)
    requires forall j :: 0 <= j < n ==> !StoresKey(steps[j], key)
    ensures key !in states[n].cache <==> exists i :: 0 <= i < n && Overtaken(states[i], steps[i], key)
  {
    hide Next;
    if i :| 0 <= i < n && Overtaken(states[i], steps[i], key) {
      assert OnlyRecord(states[0], key, ref) by {
        assert forall t :: At(states[0], t, key) ==> Good(states[0].requests[t].pc, ref, server);
      }
      StaysOnly(steps, states, ttl, i, key, ref);
      assert Holding(states[i], steps[i].t, key);
      assert Going(states[i], key);
      StaysGoing(steps, states, ttl, i, n, key);
    } else {
      AlwaysFirm(steps, states, ttl, n, key, ref, start);
    }
  }

  /** A request tests its record in time, and a pass that begins after the deadline finds it expired. */
  lemma RaceBegins(key: Key, a: Server, ttl: Time) returns (states: seq<State>)
    requires a.Healthy() && a.listener.Some?
    ensures var servers, e := map[a.id := a], Entry(key, a.id, ttl);
            && Run([Load(0, key), Test(0, key, servers, ttl), Begin(0, ttl + 1), Visit(0, key)], states, ttl)
            && states[0] == State(map[key := 0], map[0 := e], map[], map[], 0)
            && states[1].clock == 0 && 0 in states[1].requests && states[1].requests[0].pc == Loaded(0)
            && states[1].records == map[0 := e]
            && states[4] == State(map[key := 0], map[0 := e], map[0 := Request(key, Passed(0, servers))],
                                  map[0 := Pass(ttl + 1, Some(key))], ttl + 1)
  {
    hide Next;
    hide Enabled;
    var servers, e := map[a.id := a], Entry(key, a.id, ttl);
    var s0 := State(map[key := 0], map[0 := e], map[], map[], 0);
    var s1 := Move(s0, 0, key, Loaded(0));
    LoadFollows(s0, 0, key, ttl);
    var s2 := Move(s1, 0, key, Passed(0, servers)).(clock := ttl);
    TestFollows(s1, 0, key, 0, servers, ttl, ttl);
    var s3 := s2.(passes := s2.passes[0 := Pass(ttl + 1, None)], clock := ttl + 1);
    var s4 := s3.(passes := s3.passes[0 := Pass(ttl + 1, Some(key))]);
    SweepFollows(s2, 0, key, ttl + 1, ttl);
    states := [s0, s1, s2, s3, s4];
  }

  /** The request renews the record, the pass deletes it all the same, and the next request finds nothing. */
  lemma RaceEnds(s4: State, key: Key, servers: Servers, server: ServerId, now: Time, ttl: Time) returns (s5: State, s6: State, s7: State)
    requires s4 == State(map[key := 0], map[0 := Entry(key, server, ttl)], map[0 := Request(key, Passed(0, servers))],
                         map[0 := Pass(now, Some(key))], now) && Fit(servers, server)
    ensures Follow(s4, Renew(0, key, now), s5, ttl) && Follow(s5, Delete(0, key), s6, ttl) && Follow(s6, Load(1, key), s7, ttl)
    ensures s6.clock == s7.clock == now
    ensures s7.requests == map[0 := Request(key, Finished(Some(server))), 1 := Request(key, Balancing)]
  {
    hide Next;
    hide Enabled;
    var e := Entry(key, server, ttl);
    s5 := Move(s4, 0, key, Finished(Some(server))).(records := s4.records[0 := e.(expiry := now + ttl)], clock := now);
    RenewFollows(s4, 0, key, 0, servers, now, ttl);
    s6 := s5.(passes := s5.passes[0 := Pass(now, None)], cache := s5.cache - {key});
    DeleteFollows(s5, 0, key, now, ttl);
    s7 := Move(s6, 1, key, Balancing);
    LoadFollows(s6, 1, key, ttl);
  }

  /** A run in which it happens: the pass tests the record, the request renews it, the pass deletes it. */
  lemma RenewedThenSwept(key: Key, a: Server, ttl: Time) returns (steps: seq<Step>, states: seq<State>)
    requires a.Healthy() && a.listener.Some?
    ensures Run(steps, states, ttl) && |steps| == 7 && Timely(steps, states, key, 0, ttl)
    ensures Standing(states[0], key, 0, a.id, ttl)
    ensures states[7].requests == map[0 := Request(key, Finished(Some(a.id))), 1 := Request(key, Balancing)]
  {
    hide Next;
    hide Enabled;
    var servers := map[a.id := a];
    var ss := RaceBegins(key, a, ttl);
    var s5, s6, s7 := RaceEnds(ss[4], key, servers, a.id, ttl + 1, ttl);
    steps := [Load(0, key), Test(0, key, servers, ttl), Begin(0, ttl + 1), Visit(0, key)] +
             [Renew(0, key, ttl + 1), Delete(0, key), Load(1, key)];
    states := ss + [s5, s6, s7];
    assert Standing(states[0], key, 0, a.id, ttl);
    hide Standing;
    assert Run(steps, states, ttl);
    assert steps[..0] == [] && steps[..1][..0] == [] && steps[..6][..5] == steps[..5];
    assert Renewed(steps[..6], key, 0) == Renewed(steps[..5], key, 0) == ttl + 1;
  }

  // --- from the first request on ---

  /** Nothing is known of the key yet. */
  ghost predicate Untouched(s: State, key: Key) {
    && (forall r :: r in s.records ==> s.records[r].key != key)
    && (forall t :: t in s.requests ==> s.requests[t].key != key)
  }

  /** Every record of the key, and every answer to a request of it, names this server. */
  ghost predicate OneServer(s: State, key: Key, server: ServerId) {
    && (forall r :: r in s.records && s.records[r].key == key ==> s.records[r].server == server)
    && Answers(s, key, server)
  }

  ghost predicate Answers(s: State, key: Key, server: ServerId) {
    forall t :: At(s, t, key) && s.requests[t].pc.Finished? && s.requests[t].pc.result.Some? ==>
      s.requests[t].pc.result.value == server
  }

  lemma OneServerNext(s: State, step: Step, ttl: Time, key: Key, server: ServerId)
    requires Sane(s) && OneServer(s, key, server) && Enabled(s, step)
    requires StoresKey(step, key) ==> step.server == server
    ensures OneServer(Next(s, step, ttl), key, server)
  {
  }

  lemma {:induction false} AlwaysSane(steps: seq<Step>, states: seq<State>, ttl: Time, n: nat)
    requires Run(steps, states, ttl) && n <= |steps|
    ensures Sane(states[n])
  {
    if n == 0 {
    } else {
      AlwaysSane(steps, states, ttl, n - 1);
      SaneNext(states[n - 1], steps[n - 1], ttl);
    }
  }

  lemma {:induction false} StaysOne(steps: seq<Step>, states: seq<State>, ttl: Time, n: nat, key: Key, server: ServerId)
    requires Run(steps, states, ttl) && n <= |steps| && OneServer(states[0], key, server)
    requires forall i :: 0 <= i < n && StoresKey(steps[i], key) ==> steps[i].server == server
    ensures OneServer(states[n], key, server)
  {
    hide Next;
    hide Enabled;
    hide OneServer;
    if n == 0 {
    } else {
      StaysOne(steps, states, ttl, n - 1, key, server);
      AlwaysSane(steps, states, ttl, n - 1);
      OneServerNext(states[n - 1], steps[n - 1], ttl, key, server);
    }
  }

  lemma AnswerNext(s: State, step: Step, ttl: Time, t: RequestId)
    requires Enabled(s, step) && t in s.requests && s.requests[t].pc.Finished?
    ensures t in Next(s, step, ttl).requests && Next(s, step, ttl).requests[t] == s.requests[t]
  {
  }

  /** An answer stays as it is. */
  lemma {:induction false} AnswerStays(steps: seq<Step>, states: seq<State>, ttl: Time, i: nat, n: nat, t: RequestId)
    requires Run(steps, states, ttl) && i <= n <= |steps| && t in states[i].requests && states[i].requests[t].pc.Finished?
    ensures t in states[n].requests && states[n].requests[t] == states[i].requests[t]
    decreases n - i
  {
    hide Next;
    hide Enabled;
    if i == n {
    } else {
      AnswerNext(states[i], steps[i], ttl, t);
      AnswerStays(steps, states, ttl, i + 1, n, t);
    }
  }

  /** From the first request on all answers name one server if and only if all stores do. */
  lemma OneServerIff(steps: seq<Step>, states: seq<State>, ttl: Time, n: nat, key: Key, server: ServerId)
    requires Run(steps, states, ttl) && n <= |steps| && Untouched(states[0], key)
    ensures Answers(states[n], key, server) <==>
            forall i :: 0 <= i < n && StoresKey(steps[i], key) ==> steps[i].server == server
  {
    if forall i :: 0 <= i < n && StoresKey(steps[i], key) ==> steps[i].server == server {
      StaysOne(steps, states, ttl, n, key, server);
    }
    if Answers(states[n], key, server) {
      forall i | 0 <= i < n && StoresKey(steps[i], key)
        ensures steps[i].server == server
      {
        AnswerStays(steps, states, ttl, i + 1, n, steps[i].t);
      }
    }
  }

  /** The server of the latest store of the key. */
  function LatestStore(steps: seq<Step>, key: Key): Option<ServerId> {
    if steps == [] then None
    else if StoresKey(steps[|steps| - 1], key) then Some(steps[|steps| - 1].server)
    else LatestStore(steps[..|steps| - 1], key)
  }

  lemma CacheNext(s: State, step: Step, ttl: Time, key: Key)
    requires Enabled(s, step) && Sane(s) && key in Next(s, step, ttl).cache
    ensures var s' := Next(s, step, ttl);
            && s'.cache[key] in s'.records
            && if StoresKey(step, key) then s'.records[s'.cache[key]].server == step.server
               else key in s.cache && s'.records[s'.cache[key]].server == s.records[s.cache[key]].server
  {
  }

  lemma {:induction false} CacheIsLatest(steps: seq<Step>, states: seq<State>, ttl: Time, n: nat, key: Key)
    requires Run(steps, states, ttl) && n <= |steps| && Untouched(states[0], key) && key in states[n].cache
    ensures states[n].cache[key] in states[n].records
    ensures LatestStore(steps[..n], key) == Some(states[n].records[states[n].cache[key]].server)
  {
    if n == 0 {
    } else {
      AlwaysSane(steps, states, ttl, n - 1);
      assert steps[..n][..n - 1] == steps[..n - 1];
      CacheNext(states[n - 1], steps[n - 1], ttl, key);
      hide Next;
      hide Enabled;
      if !StoresKey(steps[n - 1], key) {
        CacheIsLatest(steps, states, ttl, n - 1, key);
      }
    }
  }

  /** A request that found a record holds it, or was answered with its server, until it turns to the balancer. */
  ghost predicate Follows(s: State, t: RequestId, server: Option<ServerId>) {
    t in s.requests &&
    match s.requests[t].pc
    case Loaded(r) => r in s.records && server == Some(s.records[r].server)
    case Passed(r, _) => r in s.records && server == Some(s.records[r].server)
    case Finished(result) => result.Some? ==> result == server
    case _ => true
  }

  lemma FollowsNext(s: State, step: Step, ttl: Time, t: RequestId, server: Option<ServerId>)
    requires Enabled(s, step) && Follows(s, t, server) && !(step.Store? && step.t == t)
    ensures Follows(Next(s, step, ttl), t, server)
  {
  }

  lemma {:induction false} FollowsOn(steps: seq<Step>, states: seq<State>, ttl: Time, i: nat, n: nat, t: RequestId, server: Option<ServerId>)
    requires Run(steps, states, ttl) && i <= n <= |steps| && Follows(states[i], t, server)
    requires forall j :: i <= j < n ==> !(steps[j].Store? && steps[j].t == t)
    ensures Follows(states[n], t, server)
    decreases n - i
  {
    hide Next;
    hide Enabled;
    hide Follows;
    if i == n {
    } else {
      FollowsNext(states[i], steps[i], ttl, t, server);
      FollowsOn(steps, states, ttl, i + 1, n, t, server);
    }
  }

  /** A request is answered with the server of the latest store before it looked, or with its own store. */
  lemma LatestAnswer(steps: seq<Step>, states: seq<State>, ttl: Time, i: nat, n: nat, t: RequestId, key: Key)
    requires Run(steps, states, ttl) && i < n <= |steps| && Untouched(states[0], key) && steps[i] == Load(t, key)
    requires t in states[n].requests && states[n].requests[t].pc.Finished? && states[n].requests[t].pc.result.Some?
    ensures var result := states[n].requests[t].pc.result;
            || result == LatestStore(steps[..i], key)
            || exists j :: i < j < n && steps[j].Store? && steps[j].t == t && result == Some(steps[j].server)
  {
    if j :| i < j < n && steps[j].Store? && steps[j].t == t {
      AnswerStays(steps, states, ttl, j + 1, n, t);
    } else {
      if key in states[i].cache {
        CacheIsLatest(steps, states, ttl, i, key);
      }
      assert Follows(states[i + 1], t, LatestStore(steps[..i], key));
      FollowsOn(steps, states, ttl, i + 1, n, t, LatestStore(steps[..i], key));
    }
  }

  ghost predicate StoredTwice(states: seq<State>, key: Key, a: ServerId, b: ServerId, ttl: Time) {
    && Run([Load(0, key), Load(1, key), Store(0, key, a, 0, 0), Store(1, key, b, 1, 0)], states, ttl)
    && Untouched(states[0], key)
    && states[4] == State(map[key := 1], map[0 := Entry(key, a, ttl), 1 := Entry(key, b, ttl)],
                               map[0 := Request(key, Finished(Some(a))), 1 := Request(key, Finished(Some(b)))], map[], 0)
  }

  /** Two first requests at once: both miss and both store. */
  lemma TwoStores(key: Key, a: ServerId, b: ServerId, ttl: Time)
    ensures exists states :: StoredTwice(states, key, a, b, ttl)
  {
    hide Next;
    hide Enabled;
    var s0 := State(map[], map[], map[], map[], 0);
    var s1 := Move(s0, 0, key, Balancing);
    LoadFollows(s0, 0, key, ttl);
    var s2 := Move(s1, 1, key, Balancing);
    LoadFollows(s1, 1, key, ttl);
    var s3 := Move(s2, 0, key, Finished(Some(a))).(
      cache := s2.cache[key := 0], records := s2.records[0 := Entry(key, a, ttl)]);
    StoreFollows(s2, 0, key, a, 0, 0, ttl);
    var s4 := Move(s3, 1, key, Finished(Some(b))).(
      cache := s3.cache[key := 1], records := s3.records[1 := Entry(key, b, ttl)]);
    StoreFollows(s3, 1, key, b, 1, 0, ttl);
    var states := [s0, s1, s2, s3, s4];
    assert StoredTwice(states, key, a, b, ttl);
  }

  /** So two requests get two servers, and a third one that of the later store. */
  lemma TwoFirstRequests(key: Key, a: ServerId, b: Server, ttl: Time)
    requires a != b.id && b.Healthy() && b.listener.Some?
    ensures exists steps: seq<Step>, states: seq<State> ::
              && Run(steps, states, ttl) && |steps| == 7 && Untouched(states[0], key)
              && states[7].requests == map[0 := Request(key, Finished(Some(a))), 1 := Request(key, Finished(Some(b.id))),
                                      2 := Request(key, Finished(Some(b.id)))]
  {
    var steps: seq<Step>, states: seq<State>;
    hide Next;
    hide Enabled;
    var servers := map[b.id := b];
    TwoStores(key, a, b.id, ttl);
    var ss :| StoredTwice(ss, key, a, b.id, ttl);
    var s4 := ss[4];
    var s5 := Move(s4, 2, key, Loaded(1));
    LoadFollows(s4, 2, key, ttl);
    var s6 := Move(s5, 2, key, Passed(1, servers)).(clock := 0);
    TestFollows(s5, 2, key, 1, servers, 0, ttl);
    var s7 := Move(s6, 2, key, Finished(Some(b.id))).(records := s6.records[1 := Entry(key, b.id, ttl)], clock := 0);
    RenewFollows(s6, 2, key, 1, servers, 0, ttl);
    steps := [Load(0, key), Load(1, key), Store(0, key, a, 0, 0), Store(1, key, b.id, 1, 0)] +
             [Load(2, key), Test(2, key, servers, 0), Renew(2, key, 0)];
    states := ss + [s5, s6, s7];
    assert Run(steps, states, ttl);
  }
}
