/**
 The dispatcher: the priority table of routing rules, the load balancers, and the decision that
 puts rules first, then the sticky cache, then the balancer.
 */
module Dispatch {
  import opened Wrappers
  import opened Sticky
  import opened Rotation

  /** What a rule names: a virtual strategy, or a server by its remarks. */
  datatype Target = Direct | Reject | Named(remarks: string)

  datatype Rule = Rule(priority: int, kind: string, values: seq<string>, target: Target)

  datatype Route = Virtual(target: Target) | Backend(id: ServerId, addr: string)

  datatype Entry = Entry(rule: Rule, route: Route)

  /** Map keys agree with profile IDs. */
  ghost predicate Keyed(servers: Servers) {
    forall k :: k in servers ==> servers[k].id == k
  }

  // --- building the table ---

  /** A static route needs an active, healthy server with a listener. */
  predicate Routable(s: Server) {
    s.Healthy() && s.listener.Some?
  }

  ghost predicate Resolves(rule: Rule, route: Route, servers: Servers) {
    match rule.target
    case Named(remarks) =>
      exists k :: k in servers && servers[k].remarks == remarks && Routable(servers[k]) &&
        route == Backend(servers[k].id, servers[k].listener.value)
    case _ => route == Virtual(rule.target)
  }

  /** Whichever server of that name the map yields first, the rule gets a route. */
  ghost predicate Resolvable(rule: Rule, servers: Servers) {
    rule.target.Named? ==>
      && (exists k :: k in servers && servers[k].remarks == rule.target.remarks)
      && (forall k :: k in servers && servers[k].remarks == rule.target.remarks ==> Routable(servers[k]))
  }

  ghost predicate Sorted(table: seq<Entry>) {
    forall i, j :: 0 <= i < j < |table| ==> table[i].rule.priority <= table[j].rule.priority
  }

  function RulesOf(table: seq<Entry>): seq<Rule> {
    seq(|table|, i requires 0 <= i < |table| => table[i].rule)
  }

  /** A rule occurs as often as among the rules if it surely has a route, and never more often. */
  ghost predicate Counted(table: seq<Entry>, rules: seq<Rule>, servers: Servers) {
    forall r :: multiset(RulesOf(table))[r] <= multiset(rules)[r] &&
                (Resolvable(r, servers) ==> multiset(RulesOf(table))[r] == multiset(rules)[r])
  }

  /** The loop over the map: the first server with these remarks, in any order. */
  method FindByRemarks(servers: Servers, remarks: string) returns (found: Option<Server>)
    ensures found.Some? ==> exists k :: k in servers && servers[k] == found.value && servers[k].remarks == remarks
    ensures found.None? ==> forall k :: k in servers ==> servers[k].remarks != remarks
  {
    var keys := servers.Keys;
    while keys != {}
      invariant keys <= servers.Keys
      invariant forall k :: k in servers && k !in keys ==> servers[k].remarks != remarks
      decreases keys
    {
      var k :| k in keys;
      if servers[k].remarks == remarks {
        return Some(servers[k]);
      }
      keys := keys - {k};
    }
    return None;
  }

  method ResolveTarget(rule: Rule, servers: Servers) returns (route: Option<Route>)
    ensures route.Some? ==> Resolves(rule, route.value, servers)
    ensures Resolvable(rule, servers) ==> route.Some?
  {
    match rule.target
    case Named(remarks) =>
      var found := FindByRemarks(servers, remarks);
      if found.None? || !Routable(found.value) {
        return None;
      }
      return Some(Backend(found.value.id, found.value.listener.value));
    case _ =>
      return Some(Virtual(rule.target));
  }

  /** Inserts an entry into a sorted table. */
  method Insert(table: seq<Entry>, e: Entry) returns (r: seq<Entry>)
    requires Sorted(table)
    ensures Sorted(r) && multiset(r) == multiset(table) + multiset{e}
    ensures multiset(RulesOf(r)) == multiset(RulesOf(table)) + multiset{e.rule}
  {
    var i := |table|;
    while i > 0 && table[i - 1].rule.priority > e.rule.priority
      invariant 0 <= i <= |table|
      invariant forall k :: i <= k < |table| ==> table[k].rule.priority > e.rule.priority
    {
      i := i - 1;
    }
    r := table[..i] + [e] + table[i..];
    SpliceSorted(table, e, i);
    SpliceMultiset(table, e, i);
  }

  lemma SpliceMultiset(table: seq<Entry>, e: Entry, i: nat)
    requires i <= |table|
    ensures multiset(table[..i] + [e] + table[i..]) == multiset(table) + multiset{e}
    ensures multiset(RulesOf(table[..i] + [e] + table[i..])) == multiset(RulesOf(table)) + multiset{e.rule}
  {
    assert table == table[..i] + table[i..];
    var rules := RulesOf(table);
    assert RulesOf(table[..i] + [e] + table[i..]) == rules[..i] + [e.rule] + rules[i..];
    assert rules == rules[..i] + rules[i..];
  }

  lemma SpliceSorted(table: seq<Entry>, e: Entry, i: nat)
    requires Sorted(table) && i <= |table|
    requires i > 0 ==> table[i - 1].rule.priority <= e.rule.priority
    requires forall k :: i <= k < |table| ==> table[k].rule.priority > e.rule.priority
    ensures Sorted(table[..i] + [e] + table[i..])
  {
    var r := table[..i] + [e] + table[i..];
    assert forall a :: 0 <= a < |r| ==> r[a] == (if a < i then table[a] else if a == i then e else table[a - 1]);
  }

  /** The table that the first n rules make. */
  ghost predicate Built(table: seq<Entry>, rules: seq<Rule>, n: nat, servers: Servers)
    requires n <= |rules|
  {
    && Sorted(table)
    && (forall e :: e in table ==> e.rule in rules && Resolves(e.rule, e.route, servers))
    && Counted(table, rules[..n], servers)
  }

  lemma CountedMore(rules: seq<Rule>, n: nat)
    requires n < |rules|
    ensures multiset(rules[..n + 1]) == multiset(rules[..n]) + multiset{rules[n]}
  {
    assert rules[..n + 1] == rules[..n] + [rules[n]];
  }

  lemma BuiltWith(before: seq<Entry>, rules: seq<Rule>, n: nat, servers: Servers, e: Entry, table: seq<Entry>)
    requires n < |rules| && Built(before, rules, n, servers) && e.rule == rules[n] && Resolves(e.rule, e.route, servers)
    requires Sorted(table) && multiset(table) == multiset(before) + multiset{e}
    requires multiset(RulesOf(table)) == multiset(RulesOf(before)) + multiset{e.rule}
    ensures Built(table, rules, n + 1, servers)
  {
    hide Resolves;
    hide Resolvable;
    hide Sorted;
    hide RulesOf;
    CountedMore(rules, n);
    forall x | x in table
      ensures x in before || x == e
    {
      assert x in multiset(table);
    }
  }

  lemma BuiltWithout(table: seq<Entry>, rules: seq<Rule>, n: nat, servers: Servers)
    requires n < |rules| && Built(table, rules, n, servers) && !Resolvable(rules[n], servers)
    ensures Built(table, rules, n + 1, servers)
  {
    hide Resolves;
    hide Resolvable;
    hide Sorted;
    CountedMore(rules, n);
  }

  lemma BuiltNone(rules: seq<Rule>, servers: Servers)
    ensures Built([], rules, 0, servers)
  {
    assert rules[..0] == [];
  }

  /** updateRoutingTables: the rules that have a route now, lowest priority value first. */
  method BuildTable(rules: seq<Rule>, servers: Servers) returns (table: seq<Entry>)
    ensures Sorted(table)
    ensures forall e :: e in table ==> e.rule in rules && Resolves(e.rule, e.route, servers)
    ensures Counted(table, rules, servers)
  {
    table := [];
    BuiltNone(rules, servers);
    for n := 0 to |rules|
      invariant Built(table, rules, n, servers)
    {
      table := BuildMore(table, rules, n, servers);
    }
    assert rules[..|rules|] == rules;
  }

  /** A rule that surely has a route is in the table. */
  lemma InForce(table: seq<Entry>, rules: seq<Rule>, servers: Servers, r: Rule)
    requires Counted(table, rules, servers) && r in rules && Resolvable(r, servers)
    ensures exists e :: e in table && e.rule == r
  {
    assert multiset(rules)[r] > 0;
    assert r in multiset(RulesOf(table));
    var i :| 0 <= i < |table| && RulesOf(table)[i] == r;
    assert table[i] in table;
  }

  /** One turn of the loop. */
  method BuildMore(table: seq<Entry>, rules: seq<Rule>, n: nat, servers: Servers) returns (r: seq<Entry>)
    requires n < |rules| && Built(table, rules, n, servers)
    ensures Built(r, rules, n + 1, servers)
  {
    assert Sorted(table);
    hide *;
    var route := ResolveTarget(rules[n], servers);
    if route.None? {
      BuiltWithout(table, rules, n, servers);
      return table;
    }
    var e := Entry(rules[n], route.value);
    r := Insert(table, e);
    BuiltWith(table, rules, n, servers, e, r);
  }

  // --- matching ---

  /**
   The first matching entry of the table that is virtual, or whose server is active and up in the
   snapshot: no such entry has a smaller priority value.
   */
  method MatchRules(table: seq<Entry>, servers: Servers, hits: Rule -> bool) returns (found: Option<Entry>)
    requires Sorted(table)
    ensures found.Some? ==> found.value in table && hits(found.value.rule)
    ensures found.Some? && found.value.route.Backend? ==>
              var id := found.value.route.id; id in servers && servers[id].active && servers[id].up
    ensures forall e :: e in table && hits(e.rule) && e.route.Virtual? ==>
              found.Some? && found.value.rule.priority <= e.rule.priority
    ensures forall e :: e in table && hits(e.rule) && e.route.Backend? && e.route.id in servers &&
                        servers[e.route.id].active && servers[e.route.id].up ==>
              found.Some? && found.value.rule.priority <= e.rule.priority
  {
    for i := 0 to |table|
      invariant forall j :: 0 <= j < i && hits(table[j].rule) ==>
                  && table[j].route.Backend?
                  && !(table[j].route.id in servers && servers[table[j].route.id].active && servers[table[j].route.id].up)
    {
      if hits(table[i].rule) {
        if table[i].route.Virtual? {
          return Some(table[i]);
        }
        if !(table[i].route.id !in servers || !servers[table[i].route.id].active || !servers[table[i].route.id].up) {
          return Some(table[i]);
        }
      }
    }
    return None;
  }

  // --- balancing ---

  const MAX_INT64: int := 0x7fff_ffff_ffff_ffff

  /** LeastConnectionsBalancer considers a server with an instance, metrics and fewer than MaxInt64 connections. */
  predicate Candidate(s: Server) {
    s.Healthy() && s.listener.Some? && s.conns.Some? && s.conns.value < MAX_INT64
  }

  method LeastConnections(servers: Servers) returns (best: Option<Server>)
    ensures best.Some? ==> Candidate(best.value) && exists k :: k in servers && servers[k] == best.value
    ensures best.Some? ==> forall k :: k in servers && Candidate(servers[k]) ==>
                             best.value.conns.value <= servers[k].conns.value
    ensures best.None? ==> forall k :: k in servers ==> !Candidate(servers[k])
  {
    best := None;
    var min := MAX_INT64;
    var keys := servers.Keys;
    while keys != {}
      invariant keys <= servers.Keys
      invariant best.None? ==> min == MAX_INT64
      invariant best.Some? ==> Candidate(best.value) && best.value.conns == Some(min) &&
                               exists k :: k in servers && servers[k] == best.value
      invariant forall k :: k in servers && k !in keys && Candidate(servers[k]) ==> best.Some? && min <= servers[k].conns.value
      decreases keys
    {
      var k :| k in keys;
      keys := keys - {k};
      var s := servers[k];
      if s.active && s.up && s.listener.Some? && s.conns.Some? && s.conns.value < min {
        min, best := s.conns.value, Some(s);
      }
    }
  }

  /** The IDs of the servers that are active and up, ascending. */
  ghost predicate InTurn(servers: Servers, ids: seq<ServerId>) {
    && (forall i, j :: 0 <= i < j < |ids| ==> ids[i] < ids[j])
    && (forall k :: k in ids <==> k in servers && servers[k].Healthy())
  }

  lemma {:induction false} AscendingUnique(a: seq<ServerId>, b: seq<ServerId>)
    requires forall i, j :: 0 <= i < j < |a| ==> a[i] < a[j]
    requires forall i, j :: 0 <= i < j < |b| ==> b[i] < b[j]
    requires forall k :: k in a <==> k in b
    ensures a == b
  {
    assert (a != [] ==> a[0] in a) && (b != [] ==> b[0] in b);
    if a == [] {
    } else {
      var m, n := |a| - 1, |b| - 1;
      assert a[m] in b && b[n] in a;
      assert a[m] == b[n];
      forall k
        ensures k in a[..m] <==> k in b[..n]
      {
        assert k in a <==> k in a[..m] || k == a[m] by { assert a == a[..m] + [a[m]]; }
        assert k in b <==> k in b[..n] || k == b[n] by { assert b == b[..n] + [b[n]]; }
      }
      AscendingUnique(a[..m], b[..n]);
      assert a == a[..m] + [a[m]] && b == b[..n] + [b[n]];
    }
  }

  /** However the map is iterated, round robin goes round in one and the same order. */
  lemma InTurnUnique(servers: Servers, a: seq<ServerId>, b: seq<ServerId>)
    requires InTurn(servers, a) && InTurn(servers, b)
    ensures a == b
  {
    AscendingUnique(a, b);
  }

  method Available(servers: Servers) returns (ids: seq<ServerId>)
    ensures InTurn(servers, ids)
    ensures forall i, j :: 0 <= i < j < |ids| ==> ids[i] < ids[j]
    ensures forall k :: k in ids <==> k in servers && servers[k].active && servers[k].up
  {
    ids := [];
    var keys := servers.Keys;
    while keys != {}
      invariant keys <= servers.Keys
      invariant forall i, j :: 0 <= i < j < |ids| ==> ids[i] < ids[j]
      invariant forall k :: k in ids <==> k in servers && k !in keys && servers[k].Healthy()
      decreases keys
    {
      var k :| k in keys;
      keys := keys - {k};
      if servers[k].active && servers[k].up {
        ids := InsertId(ids, k);
      }
    }
  }

  method InsertId(ids: seq<ServerId>, k: ServerId) returns (r: seq<ServerId>)
    requires k !in ids && forall i, j :: 0 <= i < j < |ids| ==> ids[i] < ids[j]
    ensures forall i, j :: 0 <= i < j < |r| ==> r[i] < r[j]
    ensures forall x :: x in r <==> x in ids || x == k
  {
    var i := |ids|;
    while i > 0 && ids[i - 1] > k
      invariant 0 <= i <= |ids|
      invariant forall n :: i <= n < |ids| ==> ids[n] > k
    {
      i := i - 1;
    }
    r := ids[..i] + [k] + ids[i..];
    assert i > 0 ==> ids[i - 1] in ids;
    SpliceIds(ids, k, i);
    SpliceMembers(ids, k, i);
  }

  lemma SpliceIds(ids: seq<ServerId>, k: ServerId, n: nat)
    requires n <= |ids| && forall i, j :: 0 <= i < j < |ids| ==> ids[i] < ids[j]
    requires n > 0 ==> ids[n - 1] < k
    requires forall i :: n <= i < |ids| ==> ids[i] > k
    ensures var r := ids[..n] + [k] + ids[n..];
            forall i, j :: 0 <= i < j < |r| ==> r[i] < r[j]
  {
    var r := ids[..n] + [k] + ids[n..];
    forall i, j | 0 <= i < j < |r|
      ensures r[i] < r[j]
    {
      assert r[i] == if i < n then ids[i] else if i == n then k else ids[i - 1];
      assert r[j] == if j < n then ids[j] else if j == n then k else ids[j - 1];
      assert i < n ==> ids[i] <= ids[n - 1];
    }
  }

  lemma SpliceMembers(ids: seq<ServerId>, k: ServerId, n: nat)
    requires n <= |ids|
    ensures forall x :: x in ids[..n] + [k] + ids[n..] <==> x in ids || x == k
  {
    assert ids == ids[..n] + ids[n..];
  }

  /** Every matching entry whose priority value is not above that of e leads where e does. */
  ghost predicate Unrivalled(table: seq<Entry>, hits: Rule -> bool, e: Entry) {
    forall f :: f in table && hits(f.rule) && f.rule.priority <= e.rule.priority ==> f.route == e.route
  }

  datatype Balancer = LeastConns | RoundRobins(rr: RoundRobin)

  datatype Decision = ToVirtual(target: Target) | To(addr: string, id: ServerId) | Refused

  /** The balancer's choice is a healthy server, at its own listener address. */
  ghost predicate Serves(servers: Servers, addr: string, id: ServerId) {
    exists k :: k in servers && servers[k].Healthy() && servers[k].listener == Some(addr) && servers[k].id == id
  }

  /** Some candidate with the fewest connections has this address and ID. */
  ghost predicate Least(servers: Servers, addr: string, id: ServerId) {
    exists k :: k in servers && Candidate(servers[k]) && servers[k].listener == Some(addr) && servers[k].id == id &&
      forall m :: m in servers && Candidate(servers[m]) ==> servers[k].conns.value <= servers[m].conns.value
  }

  /** The server whose turn it is, unless it has no instance. */
  ghost predicate TakesTurn(servers: Servers, ids: seq<ServerId>, turn: nat, d: Decision) {
    && InTurn(servers, ids)
    && if ids == [] then d == Refused
       else
         var id := ids[Pick(turn, 0, |ids|)];
         && id in servers
         && d == if servers[id].listener.None? then Refused else To(servers[id].listener.value, servers[id].id)
  }

  /** What either balancer may answer when the round-robin counter stands at `turn`. */
  ghost predicate Balances(b: Balancer, turn: nat, servers: Servers, d: Decision) {
    match b
    case LeastConns =>
      && !d.ToVirtual?
      && (d == Refused <==> forall k :: k in servers ==> !Candidate(servers[k]))
      && (d.To? ==> Least(servers, d.addr, d.id))
    case RoundRobins(_) =>
      exists ids :: TakesTurn(servers, ids, turn, d)
  }

  /** With one server, either balancer takes it exactly if it can serve. */
  lemma LoneServer(b: Balancer, turn: nat, k: ServerId, s: Server, d: Decision)
    requires turn < 0x1_0000_0000
    ensures var serves := s.active && s.up && s.listener.Some? &&
                          (b.LeastConns? ==> s.conns.Some? && s.conns.value < 0x7fff_ffff_ffff_ffff);
            Balances(b, turn, map[k := s], d) <==> d == if serves then To(s.listener.value, s.id) else Refused
  {
    var servers := map[k := s];
    match b {
      case LeastConns =>
        assert k in servers && servers[k] == s && forall m :: m in servers ==> m == k;
        if Candidate(s) {
          assert Least(servers, s.listener.value, s.id);
        }
      case RoundRobins(_) =>
        var ids := if s.active && s.up then [k] else [];
        assert InTurn(servers, ids);
        forall other | InTurn(servers, other)
          ensures other == ids
        {
          InTurnUnique(servers, other, ids);
        }
        assert Balances(b, turn, servers, d) <==> TakesTurn(servers, ids, turn, d);
    }
  }

  class Dispatcher {
    var table: seq<Entry>
    const sticky: StickyManager
    const balancer: Balancer

    ghost predicate Valid()
      reads this, Counter()
    {
      Sorted(table) && (balancer.RoundRobins? ==> balancer.rr.Valid())
    }

    ghost function Counter(): set<object> {
      match balancer
      case LeastConns => {}
      case RoundRobins(rr) => {rr}
    }

    constructor (sticky: StickyManager, balancer: Balancer)
      requires balancer.RoundRobins? ==> balancer.rr.Valid()
      ensures Valid() && this.sticky == sticky && this.balancer == balancer && table == []
    {
      this.sticky, this.balancer, table := sticky, balancer, [];
    }

    method UpdateRoutingTables(rules: seq<Rule>, servers: Servers)
      requires Valid()
      modifies this
      ensures Valid()
      ensures forall e :: e in table ==> e.rule in rules && Resolves(e.rule, e.route, servers)
      ensures Counted(table, rules, servers)
      // DIRECT and REJECT rules are all in force, each as itself
      ensures forall e :: e in table && !e.rule.target.Named? ==> e.route == Virtual(e.rule.target)
      ensures forall r :: r in rules && !r.target.Named? ==> exists e :: e in table && e.rule == r
      // a rule that names a server leads to one of that name, which was active and up and listened there
      ensures forall e :: e in table && e.rule.target.Named? ==>
                exists k :: k in servers && servers[k].remarks == e.rule.target.remarks && servers[k].active &&
                  servers[k].up && servers[k].listener.Some? && e.route == Backend(servers[k].id, servers[k].listener.value)
      // and is in force if it could name no other
      ensures forall r, k :: r in rules && k in servers && r.target == Named(servers[k].remarks) && servers[k].active &&
                             servers[k].up && servers[k].listener.Some? &&
                             (forall m :: m in servers && servers[m].remarks == servers[k].remarks ==> m == k) ==>
                exists e :: e in table && e.rule == r
    {
      table := BuildTable(rules, servers);
      forall r | r in rules && Resolvable(r, servers)
        ensures exists e :: e in table && e.rule == r
      {
        InForce(table, rules, servers, r);
      }
    }

    ghost function Turn(): nat
      reads Counter()
    {
      match balancer
      case LeastConns => 0
      case RoundRobins(rr) => rr.next
    }

    method GetBackend(servers: Servers) returns (d: Decision)
      requires Valid()
      modifies Counter()
      ensures Valid() && Balances(balancer, old(Turn()), servers, d)
      ensures d.To? ==> Serves(servers, d.addr, d.id)
      ensures balancer.RoundRobins? ==>
                Turn() == if exists k :: k in servers && servers[k].Healthy() then (old(Turn()) + 1) % WRAP else old(Turn())
    {
      match balancer {
        case LeastConns =>
          var best := LeastConnections(servers);
          if best.None? {
            return Refused;
          }
          return To(best.value.listener.value, best.value.id);
        case RoundRobins(rr) =>
          var ids := Available(servers);
          if |ids| == 0 {
            assert TakesTurn(servers, ids, old(Turn()), Refused);
            return Refused;
          }
          assert ids[0] in ids;
          var slot := rr.Select(|ids|);
          assert ids[slot] in ids;
          var chosen := servers[ids[slot]];
          if chosen.listener.None? {
            assert TakesTurn(servers, ids, old(Turn()), Refused);
            return Refused;
          }
          d := To(chosen.listener.value, chosen.id);
          assert TakesTurn(servers, ids, old(Turn()), d);
      }
    }

    /** The sticky part of Dispatch: the cached server, if it is valid and has an instance. */
    method TrySticky(client: string, host: string, servers: Servers, now: Time, later: Time)
      returns (applies: bool, d: Option<Decision>)
      requires now <= later
      modifies sticky
      ensures applies <==> sticky.Applies(host)
      ensures !applies ==> d.None? && sticky.cache == old(sticky.cache)
      ensures applies ==>
                var (c, hit) := Lookup(old(sticky.cache), KeyOf(client, host), servers, now, later, sticky.ttl);
                && sticky.cache == c
                && (d.Some? <==> Served(hit, servers).Some?)
                && (d.Some? ==> d.value == To(servers[hit.server].listener.value, hit.server))
    {
      d := None;
      applies := sticky.ShouldApply(host);
      if applies {
        var hit := sticky.Get(KeyOf(client, host), servers, now, later);
        if hit.Found? && hit.server in servers && servers[hit.server].listener.Some? {
          d := Some(To(servers[hit.server].listener.value, hit.server));
        }
      }
    }

    /**
     Dispatch.  `hits` tells which rules match this client and target; `now`, `later` and `stored`
     are the readings of the clock in Get and Set.
     */
    method Dispatch(client: string, host: string, servers: Servers, hits: Rule -> bool,
                    now: Time, later: Time, stored: Time) returns (d: Decision, ghost rule: Option<Entry>)
      requires Valid() && now <= later <= stored
      modifies sticky, Counter()
      ensures Valid()
      // a rule decides only if it matches and is virtual or leads to a server that is active and up
      ensures rule.Some? ==> rule.value in table && hits(rule.value.rule)
      ensures rule.Some? && rule.value.route.Backend? ==>
                var id := rule.value.route.id; id in servers && servers[id].active && servers[id].up
      // and does so if there is one, none of which has a smaller priority value
      ensures forall e :: e in table && hits(e.rule) && e.route.Virtual? ==>
                rule.Some? && rule.value.rule.priority <= e.rule.priority
      ensures forall e :: e in table && hits(e.rule) && e.route.Backend? && e.route.id in servers &&
                          servers[e.route.id].active && servers[e.route.id].up ==>
                rule.Some? && rule.value.rule.priority <= e.rule.priority
      // so a virtual target is final where all matching rules up to its priority value name it
      ensures forall e :: e in table && hits(e.rule) && e.route.Virtual? && Unrivalled(table, hits, e) ==>
                d == ToVirtual(e.route.target)
      ensures rule.Some? ==> sticky.cache == old(sticky.cache)
      ensures rule.Some? ==> d == match rule.value.route
                                case Virtual(target) => ToVirtual(target)
                                case Backend(id, addr) => To(addr, id)
      // otherwise the cached server or the balancer's, which the cache then remembers
      ensures rule.None? ==> !d.ToVirtual?
      ensures rule.None? && !sticky.Applies(host) ==> sticky.cache == old(sticky.cache)
      ensures rule.None? && sticky.Applies(host) ==>
                var key := KeyOf(client, host);
                var (c, hit) := Lookup(old(sticky.cache), key, servers, now, later, sticky.ttl);
                if Served(hit, servers).Some?
                then d == To(servers[hit.server].listener.value, hit.server) && sticky.cache == c
                else sticky.cache == if d.To? then c[key := Record(d.id, stored + sticky.ttl)] else c
      ensures var served := sticky.Applies(host) &&
                Served(Lookup(old(sticky.cache), KeyOf(client, host), servers, now, later, sticky.ttl).1, servers).Some?;
              if rule.Some? || served then Turn() == old(Turn())
              else Balances(balancer, old(Turn()), servers, d)
      // whatever decided, a server that is returned is active and up
      ensures d.To? && Keyed(servers) ==> d.id in servers && servers[d.id].Healthy()
    {
      var found := MatchRules(table, servers, hits);
      rule := found;
      if found.Some? {
        match found.value.route
        case Virtual(target) =>
          d := ToVirtual(target);
          return;
        case Backend(id, addr) =>
          d := To(addr, id);
          return;
      }
      var applies, cached := TrySticky(client, host, servers, now, later);
      if cached.Some? {
        d := cached.value;
        return;
      }
      d := GetBackend(servers);
      if d.To? && applies {
        sticky.Set(KeyOf(client, host), d.id, stored);
      }
    }
  }
}
