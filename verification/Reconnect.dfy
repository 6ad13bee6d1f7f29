/**
 The reconnect protocol of the goremote agent, for any number of threads.

 A step is one critical section of connMutex, or one of the actions that GetConnection performs
 between unlocking and locking again.  Dialling, the tunnel's read loop and the callers are free to
 take any step at any time.
 */
module Reconnect {
  import opened Wrappers

  type Tid = nat
  type ConnId = nat
  type Profile = nat

  /** Where a thread is in GetConnection. */
  datatype Pc =
    | Ready                                          // about to lock, first time or after a wake-up
    | Sleeping                                       // in connCond.Wait
    | Claimed                                        // set reconnecting, has not read the profile yet
    | Dialling(profile: Profile)                     // dialling with the profile it read
    | Dialled(profile: Profile, conn: Option<ConnId>) // dialled or failed, about to lock again
    | Returned(result: Option<ConnId>)

  predicate InFlight(pc: Pc) {
    pc.Claimed? || pc.Dialling? || pc.Dialled?
  }

  datatype State = State(
    threads: map<Tid, Pc>,
    current: Option<ConnId>,
    reconnecting: bool,
    profile: Profile,
    dialled: map<ConnId, Profile>,
    closed: set<ConnId>,
    readers: set<ConnId>)                // connections whose read loop has not closed its connection yet

  predicate Init(s: State) {
    s == State(map[], None, false, s.profile, map[], {}, {})
  }

  datatype Step =
    | Call(t: Tid)                       // a thread enters GetConnection
    | Enter(t: Tid)                      // lock, go round the loop, unlock
    | ReadProfile(t: Tid)                // serverCfg := a.profile, outside the lock
    | DialOk(t: Tid, conn: ConnId)       // and its read loop starts, before the tunnel is installed
    | DialFails(t: Tid)
    | CipherFails(t: Tid, conn: ConnId)  // dialled, but the new connection is closed at once
    | Install(t: Tid)                    // lock, store the outcome, broadcast, unlock
    | CloseConnection(conn: ConnId)      // a writer failed
    | LoopCloses(conn: ConnId)           // the read loop failed and closes its connection
    | UpdateProfile(profile: Profile)
    | CloseAgent

  /** Broadcast: every sleeper will try the lock again. */
  function Woken(threads: map<Tid, Pc>): map<Tid, Pc> {
    map t | t in threads :: if threads[t].Sleeping? then Ready else threads[t]
  }

  function DropTunnel(s: State): State {
    if s.current.Some? then s.(current := None, closed := s.closed + {s.current.value}) else s
  }

  /** closeConnection: only the current tunnel is closed. */
  function DropIf(s: State, c: ConnId): State {
    if s.current == Some(c) then DropTunnel(s) else s
  }

  predicate Enabled(s: State, step: Step) {
    match step
    case Call(t) => t !in s.threads
    case Enter(t) => t in s.threads && s.threads[t].Ready?
    case ReadProfile(t) => t in s.threads && s.threads[t].Claimed?
    case DialOk(t, c) => t in s.threads && s.threads[t].Dialling? && c !in s.dialled
    case DialFails(t) => t in s.threads && s.threads[t].Dialling?
    case CipherFails(t, c) => t in s.threads && s.threads[t].Dialling? && c !in s.dialled
    case Install(t) => t in s.threads && s.threads[t].Dialled?
    case CloseConnection(_) => true
    case LoopCloses(c) => c in s.readers
    case UpdateProfile(_) => true
    case CloseAgent => true
  }

  function Next(s: State, step: Step): State
    requires Enabled(s, step)
  {
    match step
    case Call(t) => s.(threads := s.threads[t := Ready])
    case Enter(t) =>
      if s.current.Some? then s.(threads := s.threads[t := Returned(s.current)])
      else if s.reconnecting then s.(threads := s.threads[t := Sleeping])
      else s.(threads := s.threads[t := Claimed], reconnecting := true)
    case ReadProfile(t) => s.(threads := s.threads[t := Dialling(s.profile)])
    case DialOk(t, c) =>
      var p := s.threads[t].profile;
      s.(threads := s.threads[t := Dialled(p, Some(c))], dialled := s.dialled[c := p], readers := s.readers + {c})
    case DialFails(t) => s.(threads := s.threads[t := Dialled(s.threads[t].profile, None)])
    case CipherFails(t, c) =>
      var p := s.threads[t].profile;
      s.(threads := s.threads[t := Dialled(p, None)], dialled := s.dialled[c := p], closed := s.closed + {c})
    case Install(t) =>
      var conn := s.threads[t].conn;
      s.(threads := Woken(s.threads)[t := Returned(conn)], current := conn, reconnecting := false)
    case CloseConnection(c) => DropIf(s, c)
    case LoopCloses(c) => DropIf(s, c).(readers := s.readers - {c})
    case UpdateProfile(p) => DropTunnel(s).(profile := p)
    case CloseAgent => DropTunnel(s)
  }

  // --- the invariant ---

  /** The connection, if any, that thread t has dialled and not installed yet. */
  predicate Carries(s: State, t: Tid, c: ConnId) {
    t in s.threads && s.threads[t].Dialled? && s.threads[t].conn == Some(c)
  }

  ghost predicate OneDialler(s: State) {
    && (s.reconnecting <==> exists t :: t in s.threads && InFlight(s.threads[t]))
    && (forall t, u :: t in s.threads && u in s.threads && InFlight(s.threads[t]) && InFlight(s.threads[u]) ==> t == u)
  }

  ghost predicate NoTunnelMeanwhile(s: State) {
    s.reconnecting ==> s.current == None
  }

  ghost predicate NoLostWakeUp(s: State) {
    forall t :: t in s.threads && s.threads[t].Sleeping? ==> s.reconnecting
  }

  /** Every connection ever dialled is carried by its dialler, current, or closed. */
  ghost predicate Accounted(s: State) {
    && (forall c :: c in s.dialled ==>
          c in s.closed || s.current == Some(c) || exists t :: Carries(s, t, c))
    && (s.current.Some? ==> s.current.value in s.dialled && s.current.value !in s.closed)
    && (forall t, c :: Carries(s, t, c) ==> c in s.dialled && c !in s.closed && s.dialled[c] == s.threads[t].profile)
    && (forall c :: c in s.closed ==> c in s.dialled)
    && (forall c :: c in s.readers ==> c in s.dialled)
  }

  ghost predicate Inv(s: State) {
    OneDialler(s) && NoTunnelMeanwhile(s) && NoLostWakeUp(s) && Accounted(s)
  }

  /** Whoever is in flight has set reconnecting, so there is no tunnel to overwrite. */
  lemma DiallerMeansNoTunnel(s: State, t: Tid)
    requires Inv(s) && t in s.threads && InFlight(s.threads[t])
    ensures s.reconnecting && s.current == None
  {
  }

  lemma InvInit(s: State)
    requires Init(s)
    ensures Inv(s)
  {
  }

  lemma InvOneDialler(s: State, step: Step)
    requires Inv(s) && Enabled(s, step)
    ensures OneDialler(Next(s, step))
  {
    var s' := Next(s, step);
    match step {
      case Enter(t) =>
        if s.current == None && !s.reconnecting {
          assert InFlight(s'.threads[t]);
        } else if s.reconnecting {
          var u :| u in s.threads && InFlight(s.threads[u]);
          assert u in s'.threads && InFlight(s'.threads[u]);
        }
      case Call(t) => KeepsDiallers(s, s', t);
      case ReadProfile(t) => assert InFlight(s'.threads[t]);
      case DialOk(t, c) => assert InFlight(s'.threads[t]);
      case DialFails(t) => assert InFlight(s'.threads[t]);
      case CipherFails(t, c) => assert InFlight(s'.threads[t]);
      case Install(t) =>
      case CloseConnection(_) =>
      case LoopCloses(_) =>
      case UpdateProfile(_) =>
      case CloseAgent =>
    }
  }

  lemma KeepsDiallers(s: State, s': State, t: Tid)
    requires OneDialler(s) && t !in s.threads && s' == s.(threads := s.threads[t := Ready])
    ensures OneDialler(s')
  {
    if s.reconnecting {
      var u :| u in s.threads && InFlight(s.threads[u]);
      assert u in s'.threads && InFlight(s'.threads[u]);
    }
  }

  lemma InvAccounted(s: State, step: Step)
    requires Inv(s) && Enabled(s, step)
    ensures Accounted(Next(s, step))
  {
    var s' := Next(s, step);
    forall c | c in s'.dialled
      ensures c in s'.closed || s'.current == Some(c) || exists t :: Carries(s', t, c)
    {
      if step.DialOk? && c == step.conn {
        assert Carries(s', step.t, c);
      } else if u :| Carries(s, u, c) {
        if step.Install? {
          assert u == step.t;
        } else {
          assert Carries(s', u, c);
        }
      }
    }
    if step.Install? {
      DiallerMeansNoTunnel(s, step.t);
      assert s.threads[step.t].conn.Some? ==> Carries(s, step.t, s.threads[step.t].conn.value);
    }
    forall t, c | Carries(s', t, c)
      ensures c in s'.dialled && c !in s'.closed && s'.dialled[c] == s'.threads[t].profile
    {
      if !(step.DialOk? && t == step.t) {
        assert Carries(s, t, c);
      }
    }
  }

  /** Every step keeps the invariant. */
  lemma InvNext(s: State, step: Step)
    requires Inv(s) && Enabled(s, step)
    ensures Inv(Next(s, step))
  {
    InvOneDialler(s, step);
    InvAccounted(s, step);
  }

  // --- runs ---

  ghost predicate Run(steps: seq<Step>, states: seq<State>) {
    && |states| == |steps| + 1 && Init(states[0])
    && forall i :: 0 <= i < |steps| ==> Enabled(states[i], steps[i]) && states[i + 1] == Next(states[i], steps[i])
  }

  /** The protocol is safe over every run, whatever the threads and the network do. */
  lemma {:induction false} Safety(steps: seq<Step>, states: seq<State>, n: nat)
    requires Run(steps, states) && n < |states|
    ensures Inv(states[n])
  {
    if n > 0 {
      Safety(steps, states, n - 1);
      InvNext(states[n - 1], steps[n - 1]);
    } else {
      InvInit(states[0]);
    }
  }

  predicate Finishes(s: State, s': State, t: Tid) {
    && t in s'.threads && s'.threads[t].Returned?
    && !(t in s.threads && s.threads[t].Returned?)
  }

  /** Installing never overwrites a tunnel, and what GetConnection returns is the tunnel of that moment. */
  lemma InstallsIntoNothing(steps: seq<Step>, states: seq<State>, n: nat, t: Tid)
    requires Run(steps, states) && n < |steps|
    ensures steps[n].Install? ==> states[n].current == None
    ensures Finishes(states[n], states[n + 1], t) ==> states[n + 1].threads[t].result == states[n + 1].current
  {
    Safety(steps, states, n);
    if steps[n].Install? {
      DiallerMeansNoTunnel(states[n], steps[n].t);
    }
  }

  // --- wake-ups ---

  /** How many steps of its own a dialler is away from having installed its outcome. */
  function Distance(pc: Pc): nat {
    match pc
    case Claimed => 3
    case Dialling(_) => 2
    case Dialled(_, _) => 1
    case _ => 0
  }

  predicate StepOf(step: Step, t: Tid) {
    match step
    case Call(u) => u == t
    case Enter(u) => u == t
    case ReadProfile(u) => u == t
    case DialOk(u, _) => u == t
    case DialFails(u) => u == t
    case CipherFails(u, _) => u == t
    case Install(u) => u == t
    case _ => false
  }

  function OwnSteps(steps: seq<Step>, t: Tid): nat {
    if steps == [] then 0
    else OwnSteps(steps[..|steps| - 1], t) + if StepOf(steps[|steps| - 1], t) then 1 else 0
  }

  /** Nothing but its own steps moves a dialler, and each brings it nearer to its Install. */
  lemma DiallerAdvances(s: State, step: Step, u: Tid)
    requires Enabled(s, step) && u in s.threads && InFlight(s.threads[u])
    ensures u in Next(s, step).threads
    ensures !StepOf(step, u) ==> Next(s, step).threads[u] == s.threads[u]
    ensures StepOf(step, u) ==> Distance(Next(s, step).threads[u]) == Distance(s.threads[u]) - 1
    ensures StepOf(step, u) && !step.Install? ==> InFlight(Next(s, step).threads[u])
  {
  }

  ghost predicate Asleep(s: State, t: Tid, u: Tid) {
    && Inv(s) && t in s.threads && s.threads[t].Sleeping?
    && u in s.threads && InFlight(s.threads[u])
  }

  lemma AsleepNext(s: State, step: Step, t: Tid, u: Tid)
    requires Asleep(s, t, u) && Enabled(s, step) && step != Install(u)
    ensures Asleep(Next(s, step), t, u)
    ensures Distance(Next(s, step).threads[u]) + (if StepOf(step, u) then 1 else 0) == Distance(s.threads[u])
  {
    InvNext(s, step);
    DiallerAdvances(s, step, u);
    if step.Install? {
      assert InFlight(s.threads[step.t]);
    }
  }

  /** While the dialler has not installed, a sleeper sleeps on and reconnecting stays set. */
  lemma {:induction false} SleepsUntilInstall(steps: seq<Step>, states: seq<State>, n: nat, m: nat, t: Tid, u: Tid)
    requires Run(steps, states) && n <= m < |states| && Asleep(states[n], t, u)
    requires forall k :: n <= k < m ==> steps[k] != Install(u)
    ensures Asleep(states[m], t, u)
    ensures Distance(states[m].threads[u]) + OwnSteps(steps[n..m], u) == Distance(states[n].threads[u])
    decreases m - n
  {
    hide Next;
    hide Inv;
    hide Enabled;
    if n == m {
    } else {
      SleepsUntilInstall(steps, states, n, m - 1, t, u);
      AsleepNext(states[m - 1], steps[m - 1], t, u);
      assert steps[n..m][..m - 1 - n] == steps[n..m - 1];
    }
  }

  /** No lost wake-up: once the dialler has taken three steps, its sleepers have been woken. */
  lemma SleeperIsWoken(steps: seq<Step>, states: seq<State>, n: nat, m: nat, t: Tid, u: Tid)
    requires Run(steps, states) && n <= m < |states| && Asleep(states[n], t, u)
    requires OwnSteps(steps[n..m], u) >= 3
    ensures exists k :: n <= k < m && steps[k] == Install(u) && t in states[k + 1].threads && states[k + 1].threads[t].Ready?
  {
    if k :| n <= k < m && steps[k] == Install(u) {
      FirstInstall(steps, states, n, k, t, u);
    } else {
      SleepsUntilInstall(steps, states, n, m, t, u);
      assert false;
    }
  }

  lemma {:induction false} FirstInstall(steps: seq<Step>, states: seq<State>, n: nat, k: nat, t: Tid, u: Tid)
    requires Run(steps, states) && n <= k < |steps| && steps[k] == Install(u) && Asleep(states[n], t, u)
    ensures exists j :: n <= j <= k && steps[j] == Install(u) && t in states[j + 1].threads && states[j + 1].threads[t].Ready?
    decreases k
  {
    if j :| n <= j < k && steps[j] == Install(u) {
      FirstInstall(steps, states, n, j, t, u);
    } else {
      SleepsUntilInstall(steps, states, n, k, t, u);
      assert states[k + 1].threads[t].Ready?;
    }
  }

  /** No deadlock: a sleeper implies a dialler, and a dialler can always move. */
  lemma SomeoneCanMove(steps: seq<Step>, states: seq<State>, n: nat, t: Tid)
    requires Run(steps, states) && n < |states| && t in states[n].threads && !states[n].threads[t].Returned?
    ensures exists u, step :: u in states[n].threads && StepOf(step, u) && Enabled(states[n], step) &&
              (u == t || (states[n].threads[t].Sleeping? && InFlight(states[n].threads[u])))
  {
    Safety(steps, states, n);
    var s := states[n];
    if s.threads[t].Sleeping? {
      var u :| u in s.threads && InFlight(s.threads[u]);
      CanMove(s, u);
    } else {
      CanMove(s, t);
    }
  }

  lemma CanMove(s: State, u: Tid)
    requires u in s.threads && (InFlight(s.threads[u]) || s.threads[u].Ready?)
    ensures exists step :: StepOf(step, u) && Enabled(s, step)
  {
    var step := match s.threads[u]
      case Ready => Enter(u)
      case Claimed => ReadProfile(u)
      case Dialling(_) => DialFails(u)
      case _ => Install(u);
    assert StepOf(step, u) && Enabled(s, step);
  }

  // --- how long a tunnel stays current ---

  /** A writer or the read loop of c gave up, or the agent leaves its server. */
  predicate Retires(step: Step, c: ConnId) {
    step == CloseConnection(c) || step == LoopCloses(c) || step.UpdateProfile? || step == CloseAgent
  }

  ghost predicate Untouched(steps: seq<Step>, i: nat, n: nat, c: ConnId)
    requires n <= |steps|
  {
    forall k :: i <= k < n ==> !Retires(steps[k], c)
  }

  /** A current tunnel is closed by exactly these steps, and then it is not current any more. */
  lemma RetiredNext(s: State, step: Step, c: ConnId)
    requires Inv(s) && Enabled(s, step) && s.current == Some(c)
    ensures if Retires(step, c) then Next(s, step).current == None && c in Next(s, step).closed
            else Next(s, step).current == Some(c) && c !in Next(s, step).closed
  {
    if step.Install? {
      DiallerMeansNoTunnel(s, step.t);
      assert false;
    }
  }

  /** What is closed was current, or could not be given a cipher; nothing is opened again. */
  lemma ClosedNext(s: State, step: Step, c: ConnId)
    requires Enabled(s, step)
    ensures c in Next(s, step).closed <==>
              c in s.closed || (s.current == Some(c) && Retires(step, c)) || (step.CipherFails? && step.conn == c)
    ensures c in Next(s, step).dialled <==> c in s.dialled || ((step.DialOk? || step.CipherFails?) && step.conn == c)
  {
  }

  /** Over every run: a tunnel stays current exactly as long as nothing retires it, and then it is closed. */
  lemma {:induction false} TunnelUntil(steps: seq<Step>, states: seq<State>, i: nat, n: nat, c: ConnId)
    requires Run(steps, states) && i <= n < |states| && states[i].current == Some(c)
    ensures states[n].current == Some(c) <==> Untouched(steps, i, n, c)
    ensures c in states[n].closed <==> !Untouched(steps, i, n, c)
    decreases n
  {
    hide Next;
    hide Enabled;
    hide Inv;
    Safety(steps, states, n);
    NotBoth(states[n], c);
    if i == n {
    } else {
      TunnelUntil(steps, states, i, n - 1, c);
      Safety(steps, states, n - 1);
      ClosedNext(states[n - 1], steps[n - 1], c);
      if states[n - 1].current == Some(c) {
        RetiredNext(states[n - 1], steps[n - 1], c);
      }
    }
  }

  lemma NotBoth(s: State, c: ConnId)
    requires Inv(s)
    ensures s.current == Some(c) ==> c !in s.closed
  {
  }

  // --- what GetConnection returns ---

  predicate Dial(step: Step, t: Tid) {
    (step.DialOk? || step.DialFails? || step.CipherFails?) && step.t == t
  }

  /** What a dial gives its thread. */
  function Outcome(step: Step): Option<ConnId> {
    if step.DialOk? then Some(step.conn) else None
  }

  /** The outcome of a dial is still to come, or has been there since. */
  predicate Undialled(s: State, t: Tid) {
    t in s.threads ==> !s.threads[t].Dialled? && !s.threads[t].Returned?
  }

  lemma DialNext(s: State, step: Step, t: Tid)
    requires Enabled(s, step)
    ensures Undialled(Next(s, step), t) ==> Undialled(s, t) && !Dial(step, t)
    ensures Dial(step, t) ==> Undialled(s, t)
    ensures var s' := Next(s, step);
            t in s'.threads && s'.threads[t].Dialled? ==>
              if Dial(step, t) then s'.threads[t].conn == Outcome(step)
              else t in s.threads && s'.threads[t] == s.threads[t]
  {
  }

  lemma {:induction false} NoDialBefore(steps: seq<Step>, states: seq<State>, n: nat, t: Tid)
    requires Run(steps, states) && n < |states| && Undialled(states[n], t)
    ensures forall d :: 0 <= d < n ==> !Dial(steps[d], t)
  {
    hide Next;
    hide Enabled;
    hide Undialled;
    hide Dial;
    if n > 0 {
      DialNext(states[n - 1], steps[n - 1], t);
      NoDialBefore(steps, states, n - 1, t);
    }
  }

  /** A thread dials once, and carries to its install what that gave. */
  lemma {:induction false} DialledOnce(steps: seq<Step>, states: seq<State>, n: nat, t: Tid, d: nat)
    requires Run(steps, states) && d < n < |states| && Dial(steps[d], t)
    requires t in states[n].threads && states[n].threads[t].Dialled?
    ensures states[n].threads[t].conn == Outcome(steps[d])
  {
    hide Next;
    hide Enabled;
    hide Dial;
    DialNext(states[n - 1], steps[n - 1], t);
    if Dial(steps[n - 1], t) {
      NoDialBefore(steps, states, n - 1, t);
    } else {
      DialledOnce(steps, states, n - 1, t, d);
    }
  }

  /** Who has dialled did so at some step. */
  lemma {:induction false} DialBehind(steps: seq<Step>, states: seq<State>, n: nat, t: Tid) returns (d: nat)
    requires Run(steps, states) && n < |states| && t in states[n].threads && states[n].threads[t].Dialled?
    ensures d < n && Dial(steps[d], t) && states[n].threads[t].conn == Outcome(steps[d])
  {
    hide Next;
    hide Enabled;
    assert n > 0;
    DialNext(states[n - 1], steps[n - 1], t);
    d := n - 1;
    if !Dial(steps[n - 1], t) {
      d := DialBehind(steps, states, n - 1, t);
    }
  }

  /** The step at which a call ends: it found a tunnel, or it stored the outcome of its own dial. */
  predicate Ends(s: State, step: Step, t: Tid) {
    (step == Enter(t) && s.current.Some?) || step == Install(t)
  }

  lemma EndsNext(s: State, step: Step, t: Tid)
    requires Enabled(s, step)
    ensures Finishes(s, Next(s, step), t) <==> Ends(s, step, t)
    ensures step == Enter(t) && s.current.Some? ==> Next(s, step).threads[t] == Returned(s.current)
    ensures step == Install(t) ==> Next(s, step).threads[t] == Returned(s.threads[t].conn)
    ensures step == Call(t) ==> t in Next(s, step).threads && !Next(s, step).threads[t].Returned?
  {
  }

  /**
   What a call of GetConnection returns, over every run.  It ends exactly when it finds a tunnel or
   stores the outcome of its dial; it returns that tunnel, or the connection that its one dial made,
   or an error if the dial failed.
   */
  lemma CallReturns(steps: seq<Step>, states: seq<State>, n: nat, t: Tid)
    requires Run(steps, states) && n < |steps|
    ensures Finishes(states[n], states[n + 1], t) <==> Ends(states[n], steps[n], t)
    ensures steps[n] == Enter(t) && states[n].current.Some? ==> states[n + 1].threads[t] == Returned(states[n].current)
    ensures steps[n] == Install(t) ==> exists d :: 0 <= d < n && Dial(steps[d], t)
    ensures steps[n] == Install(t) ==>
              forall d :: 0 <= d < n && Dial(steps[d], t) ==> states[n + 1].threads[t] == Returned(Outcome(steps[d]))
    ensures steps[n] == Call(t) ==> t in states[n + 1].threads && !states[n + 1].threads[t].Returned?
  {
    EndsNext(states[n], steps[n], t);
    if steps[n] == Install(t) {
      assert Enabled(states[n], steps[n]);
      hide Enabled;
      hide Next;
      var d := DialBehind(steps, states, n, t);
      forall d | 0 <= d < n && Dial(steps[d], t)
        ensures states[n].threads[t].conn == Outcome(steps[d])
      {
        DialledOnce(steps, states, n, t, d);
      }
    }
  }

  /** s' comes out of s by these steps. */
  ghost predicate Leads(s: State, steps: seq<Step>, s': State)
    decreases |steps|
  {
    if steps == [] then s' == s else Enabled(s, steps[0]) && Leads(Next(s, steps[0]), steps[1..], s')
  }

  /** A new caller has dialled c and installed it. */
  ghost predicate Installed(s: State, t: Tid, c: ConnId, p: Profile) {
    s.current == Some(c) && t in s.threads && s.threads[t] == Returned(Some(c)) && c in s.dialled && s.dialled[c] == p
  }

  /** A tunnel whose writer failed can be replaced by the next caller, to the server of that moment. */
  lemma Redials(s: State, b: ConnId, t: Tid, c: ConnId)
    requires Inv(s) && s.current == Some(b) && t !in s.threads && c !in s.dialled
    ensures exists s' :: Leads(s, [CloseConnection(b), Call(t), Enter(t), ReadProfile(t), DialOk(t, c), Install(t)], s') &&
                         Installed(s', t, c, s.profile) && b in s'.closed
  {
    RetiredNext(s, CloseConnection(b), b);
    ClosedNext(s, CloseConnection(b), c);
    assert !s.reconnecting;
    var s1 := Next(s, CloseConnection(b));
    Fetches(s1, t, c);
    var five := [Call(t), Enter(t), ReadProfile(t), DialOk(t, c), Install(t)];
    var s' :| Leads(s1, five, s') && Installed(s', t, c, s.profile) && s'.closed == s1.closed;
    assert [CloseConnection(b), Call(t), Enter(t), ReadProfile(t), DialOk(t, c), Install(t)][1..] == five;
    assert Leads(s, [CloseConnection(b), Call(t), Enter(t), ReadProfile(t), DialOk(t, c), Install(t)], s');
  }

  lemma Fetches(s: State, t: Tid, c: ConnId)
    requires s.current == None && !s.reconnecting && t !in s.threads && c !in s.dialled
    ensures exists s' :: Leads(s, [Call(t), Enter(t), ReadProfile(t), DialOk(t, c), Install(t)], s') &&
                         Installed(s', t, c, s.profile) && s'.closed == s.closed
  {
    var s1 := Next(s, Call(t));
    var s2 := Next(s1, Enter(t));
    var s3 := Next(s2, ReadProfile(t));
    var s4 := Next(s3, DialOk(t, c));
    var s' := Next(s4, Install(t));
    assert Leads(s4, [Install(t)], s');
    assert Leads(s3, [DialOk(t, c), Install(t)], s');
    assert Leads(s2, [ReadProfile(t), DialOk(t, c), Install(t)], s');
    assert Leads(s1, [Enter(t), ReadProfile(t), DialOk(t, c), Install(t)], s');
    assert Leads(s, [Call(t), Enter(t), ReadProfile(t), DialOk(t, c), Install(t)], s');
  }

  // --- where the current tunnel comes from ---

  /** The profile after some steps. */
  function ProfileAfter(steps: seq<Step>, p: Profile): Profile {
    if steps == [] then p
    else
      var last := steps[|steps| - 1];
      if last.UpdateProfile? then last.profile else ProfileAfter(steps[..|steps| - 1], p)
  }

  lemma ProfileNext(s: State, step: Step)
    requires Enabled(s, step)
    ensures Next(s, step).profile == if step.UpdateProfile? then step.profile else s.profile
  {
  }

  lemma {:induction false} ProfileOf(steps: seq<Step>, states: seq<State>, i: nat, n: nat)
    requires Run(steps, states) && i <= n < |states|
    ensures states[n].profile == ProfileAfter(steps[i..n], states[i].profile)
    decreases n - i
  {
    hide Next;
    hide Enabled;
    if i == n {
    } else {
      ProfileOf(steps, states, i, n - 1);
      assert steps[i..n][..n - 1 - i] == steps[i..n - 1];
      ProfileNext(states[n - 1], steps[n - 1]);
    }
  }

  /** Thread t read the profile at step i, dialled c at d and installed it at j; since then nobody closed it. */
  ghost predicate Origin(steps: seq<Step>, n: nat, c: ConnId, t: Tid, i: nat, d: nat, j: nat)
    requires n <= |steps|
  {
    && i < d < j < n && steps[i] == ReadProfile(t) && steps[d] == DialOk(t, c) && steps[j] == Install(t)
    && Untouched(steps, j + 1, n, c)
  }

  lemma {:induction false} ReadBefore(steps: seq<Step>, states: seq<State>, n: nat, t: Tid) returns (i: nat)
    requires Run(steps, states) && n < |states| && t in states[n].threads && states[n].threads[t].Dialling?
    ensures i < n && steps[i] == ReadProfile(t) && states[n].threads[t].profile == states[i].profile
  {
    assert n > 0;
    assert states[n] == Next(states[n - 1], steps[n - 1]);
    if steps[n - 1] == ReadProfile(t) {
      i := n - 1;
    } else {
      i := ReadBefore(steps, states, n - 1, t);
    }
  }

  lemma {:induction false} DialledBefore(steps: seq<Step>, states: seq<State>, n: nat, t: Tid, c: ConnId) returns (i: nat, d: nat)
    requires Run(steps, states) && n < |states| && Carries(states[n], t, c)
    ensures i < d < n && steps[i] == ReadProfile(t) && steps[d] == DialOk(t, c)
    ensures states[n].threads[t].profile == states[i].profile
  {
    assert n > 0;
    assert states[n] == Next(states[n - 1], steps[n - 1]);
    if steps[n - 1] == DialOk(t, c) {
      d := n - 1;
      i := ReadBefore(steps, states, n - 1, t);
    } else {
      i, d := DialledBefore(steps, states, n - 1, t, c);
    }
  }

  lemma DialledStays(s: State, step: Step, c: ConnId)
    requires Enabled(s, step) && c in s.dialled
    ensures c in Next(s, step).dialled && Next(s, step).dialled[c] == s.dialled[c]
  {
  }

  /** A tunnel stays current through steps that do not close it, and becomes current by its install. */
  lemma CurrentNext(s: State, step: Step, c: ConnId)
    requires Inv(s) && Enabled(s, step) && Next(s, step).current == Some(c)
    ensures if s.current == Some(c) then !Retires(step, c) && c in s.dialled
            else step.Install? && Carries(s, step.t, c) && c in s.dialled && s.dialled[c] == s.threads[step.t].profile
  {
    assert step.Install? ==> s.threads[step.t].conn == Some(c) ==> Carries(s, step.t, c);
  }

  /** Every current tunnel has such an origin, and leads where the profile pointed when it was read. */
  lemma {:induction false} TunnelOrigin(steps: seq<Step>, states: seq<State>, n: nat, c: ConnId)
    returns (t: Tid, i: nat, d: nat, j: nat)
    requires Run(steps, states) && n < |states| && states[n].current == Some(c)
    ensures Origin(steps, n, c, t, i, d, j)
    ensures c in states[n].dialled && states[n].dialled[c] == states[i].profile
    ensures states[n].profile == states[j].profile
  {
    hide Next;
    hide Enabled;
    hide Inv;
    assert n > 0;
    Safety(steps, states, n - 1);
    CurrentNext(states[n - 1], steps[n - 1], c);
    DialledStays(states[n - 1], steps[n - 1], c);
    ProfileNext(states[n - 1], steps[n - 1]);
    if states[n - 1].current == Some(c) {
      t, i, d, j := TunnelOrigin(steps, states, n - 1, c);
    } else {
      t, j := steps[n - 1].t, n - 1;
      i, d := DialledBefore(steps, states, n - 1, t, c);
    }
  }

  /** And whatever was dialled, installed and not retired since is the current tunnel. */
  lemma OriginCounts(steps: seq<Step>, states: seq<State>, n: nat, c: ConnId, t: Tid, i: nat, d: nat, j: nat)
    requires Run(steps, states) && n < |states| && Origin(steps, n, c, t, i, d, j)
    ensures states[n].current == Some(c)
  {
    assert Enabled(states[j], steps[j]) && Dial(steps[d], t);
    assert states[j + 1].current == states[j].threads[t].conn;
    hide Next;
    hide Enabled;
    DialledOnce(steps, states, j, t, d);
    TunnelUntil(steps, states, j + 1, n, c);
  }

  /**
   The tunnel of any moment in any run leads to another server than the profile names if and only if
   the last profile update that fell between reading the profile and installing the tunnel, if there
   was one, named another server than the one read.
   */
  lemma StaleIff(steps: seq<Step>, states: seq<State>, n: nat, c: ConnId) returns (t: Tid, i: nat, d: nat, j: nat)
    requires Run(steps, states) && n < |states| && states[n].current == Some(c)
    ensures Origin(steps, n, c, t, i, d, j) && c in states[n].dialled
    ensures states[n].dialled[c] != states[n].profile <==>
            ProfileAfter(steps[i..j], states[i].profile) != states[i].profile
  {
    t, i, d, j := TunnelOrigin(steps, states, n, c);
    ProfileOf(steps, states, i, j);
  }

  ghost predicate DialsFirst(states: seq<State>) {
    && Run([Call(0), Enter(0), ReadProfile(0)], states) && states[0].profile == 0
    && states[3] == State(map[0 := Dialling(0)], None, true, 0, map[], {}, {})
  }

  /** The first caller is dialling. */
  lemma FirstDial()
    ensures exists states :: DialsFirst(states)
  {
    var s0 := State(map[], None, false, 0, map[], {}, {});
    var s1 := Next(s0, Call(0));
    var s2 := Next(s1, Enter(0));
    var s3 := Next(s2, ReadProfile(0));
    var states := [s0, s1, s2, s3];
    assert DialsFirst(states);
  }

  /** Six steps after which the agent's tunnel leads to a server it was told to leave. */
  lemma StaleTunnel()
    ensures exists steps: seq<Step>, states: seq<State> ::
              && Run(steps, states) && |states| == 7 && states[0].profile == 0
              && states[6].current == Some(7) && states[6].profile == 1 && states[6].dialled == map[7 := 0]
  {
    var steps: seq<Step>, states: seq<State>;
    FirstDial();
    var ss :| DialsFirst(ss);
    var s4 := Next(ss[3], UpdateProfile(1));
    var s5 := Next(s4, DialOk(0, 7));
    var s6 := Next(s5, Install(0));
    steps := [Call(0), Enter(0), ReadProfile(0)] + [UpdateProfile(1), DialOk(0, 7), Install(0)];
    states := ss + [s4, s5, s6];
    assert Run(steps, states);
  }

  // --- does the current tunnel have a reader? ---

  lemma {:induction false} ReaderUntil(steps: seq<Step>, states: seq<State>, d: nat, n: nat, t: Tid, c: ConnId)
    requires Run(steps, states) && d < n < |states| && steps[d] == DialOk(t, c)
    ensures c in states[n].dialled
    ensures c in states[n].readers <==> forall k :: d < k < n ==> steps[k] != LoopCloses(c)
    decreases n - d
  {
    assert states[n] == Next(states[n - 1], steps[n - 1]);
    if n == d + 1 {
    } else {
      ReaderUntil(steps, states, d, n - 1, t, c);
    }
  }

  /**
   The read loop starts before the tunnel is installed, and its attempt to close a tunnel that is
   not installed yet is lost.  So a current tunnel is read by its loop if and only if the loop did
   not fail between the dial and the install.
   */
  lemma ReaderIff(steps: seq<Step>, states: seq<State>, n: nat, c: ConnId) returns (t: Tid, i: nat, d: nat, j: nat)
    requires Run(steps, states) && n < |states| && states[n].current == Some(c)
    ensures Origin(steps, n, c, t, i, d, j)
    ensures c in states[n].readers <==> forall k :: d < k < j ==> steps[k] != LoopCloses(c)
  {
    t, i, d, j := TunnelOrigin(steps, states, n, c);
    ReaderUntil(steps, states, d, n, t, c);
  }

  /** Six steps after which the agent's tunnel is open and nobody reads from it. */
  lemma ReaderlessTunnel()
    ensures exists steps: seq<Step>, states: seq<State> ::
              && Run(steps, states) && |states| == 7
              && states[6].current == Some(7) && 7 !in states[6].closed && states[6].readers == {}
  {
    var steps: seq<Step>, states: seq<State>;
    FirstDial();
    var ss :| DialsFirst(ss);
    var s4 := Next(ss[3], DialOk(0, 7));
    var s5 := Next(s4, LoopCloses(7));
    var s6 := Next(s5, Install(0));
    steps := [Call(0), Enter(0), ReadProfile(0)] + [DialOk(0, 7), LoopCloses(7), Install(0)];
    states := ss + [s4, s5, s6];
    assert Run(steps, states);
  }
}
