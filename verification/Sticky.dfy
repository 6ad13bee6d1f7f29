/**
 The sticky-session cache of the dispatcher and its keys; StickyRuns has the runs.
 Times are readings of one clock.
 */
module Sticky {
  import opened Wrappers

  type ServerId = nat
  type Key = string
  type Time = nat

  datatype Server = Server(id: ServerId, remarks: string, active: bool, up: bool, listener: Option<string>, conns: Option<int>) {
    predicate Healthy() { active && up }
  }

  type Servers = map<ServerId, Server>

  datatype Record = Record(server: ServerId, expiry: Time)

  type Cache = map<Key, Record>

  datatype Mode = Disabled | Global | Conditional | Other

  /** Why a lookup came back empty-handed, or the server it found. */
  datatype Hit = Miss | Found(server: ServerId)

  /** Get: a valid record is renewed, an expired or unhealthy one is removed. */
  function Lookup(cache: Cache, key: Key, servers: Servers, now: Time, later: Time, ttl: Time): (Cache, Hit) {
    if key !in cache then (cache, Miss)
    else
      var record := cache[key];
      if now > record.expiry then (cache - {key}, Miss)
      else if record.server !in servers || !servers[record.server].Healthy() then (cache - {key}, Miss)
      else (cache[key := Record(record.server, later + ttl)], Found(record.server))
  }

  /** The cached server that a dispatch returns: the one found, provided it has an instance to listen. */
  function Served(hit: Hit, servers: Servers): Option<ServerId> {
    if hit.Found? && hit.server in servers && servers[hit.server].listener.Some? then Some(hit.server) else None
  }

  /** The server can take the request. */
  predicate Fit(servers: Servers, server: ServerId) {
    server in servers && servers[server].Healthy() && servers[server].listener.Some?
  }

  function Expire(cache: Cache, now: Time): Cache {
    map key | key in cache && now <= cache[key].expiry :: cache[key]
  }

  /** StickyManager: a ttl of 0 switches it off as the mode "disabled" does. */
  class StickyManager {
    const ttl: Time
    const mode: Mode
    const matchers: seq<string -> bool>
    var cache: Cache

    constructor (ttl: Time, mode: Mode, matchers: seq<string -> bool>)
      ensures this.ttl == ttl && this.mode == mode && this.matchers == matchers && cache == map[]
    {
      this.ttl, this.mode, this.matchers, cache := ttl, mode, matchers, map[];
    }

    ghost predicate Applies(host: string) {
      ttl > 0 && (mode == Global || (mode == Conditional && exists i :: 0 <= i < |matchers| && matchers[i](host)))
    }

    method ShouldApply(host: string) returns (apply: bool)
      ensures apply <==> Applies(host)
      ensures apply <==> ttl > 0 && (mode == Global || (mode == Conditional && exists m :: m in matchers && m(host)))
    {
      if ttl == 0 {
        return false;
      }
      match mode
      case Global => return true;
      case Conditional =>
        for i := 0 to |matchers|
          invariant forall j :: 0 <= j < i ==> !matchers[j](host)
        {
          if matchers[i](host) {
            return true;
          }
        }
        return false;
      case _ => return false;
    }

    /** `now` is the clock at the expiry test, `later` at the renewal. */
    method Get(key: Key, servers: Servers, now: Time, later: Time) returns (hit: Hit)
      requires now <= later
      modifies this
      ensures mode == Disabled || ttl == 0 ==> cache == old(cache) && hit == Miss
      ensures mode != Disabled && ttl > 0 ==> (cache, hit) == Lookup(old(cache), key, servers, now, later, ttl)
    {
      if mode == Disabled || ttl == 0 {
        return Miss;
      }
      if key !in cache {
        return Miss;
      }
      var record := cache[key];
      if now > record.expiry {
        cache := cache - {key};
        return Miss;
      }
      var valid := record.server in servers && servers[record.server].active && servers[record.server].up;
      if !valid {
        cache := cache - {key};
        return Miss;
      }
      cache := cache[key := record.(expiry := later + ttl)];
      return Found(record.server);
    }

    method Set(key: Key, server: ServerId, now: Time)
      modifies this
      ensures cache == if mode == Disabled || ttl == 0 then old(cache) else old(cache)[key := Record(server, now + ttl)]
    {
      if mode == Disabled || ttl == 0 {
        return;
      }
      cache := cache[key := Record(server, now + ttl)];
    }

    /** The loop visits the records in any order. */
    method Cleanup(now: Time)
      modifies this
      ensures cache == Expire(old(cache), now)
    {
      var keys := cache.Keys;
      while keys != {}
        invariant keys <= old(cache).Keys && cache.Keys <= old(cache).Keys
        invariant forall k :: k in old(cache) ==>
                    (k in cache <==> k in keys || now <= old(cache)[k].expiry)
        invariant forall k :: k in cache ==> cache[k] == old(cache)[k]
        decreases keys
      {
        var key :| key in keys;
        keys := keys - {key};
        if key in cache && now > cache[key].expiry {
          cache := cache - {key};
        }
      }
    }
  }

  /** A lookup finds exactly a server whose record is in time and which is active and up; it renews or removes the record. */
  lemma LookupIff(cache: Cache, key: Key, servers: Servers, now: Time, later: Time, ttl: Time, server: ServerId)
    requires now <= later
    ensures var (c, hit) := Lookup(cache, key, servers, now, later, ttl);
            && (hit == Found(server) <==>
                  && key in cache && cache[key].server == server && now <= cache[key].expiry
                  && server in servers && servers[server].active && servers[server].up)
            && (hit.Found? ==> key in cache && hit.server == cache[key].server && c == cache[key := Record(hit.server, later + ttl)])
            && (hit == Miss ==> c == cache - {key})
  {
    if key !in cache {
      assert cache - {key} == cache;
    }
  }

  // --- the key ---

  /** clientIP + ":" + targetHost */
  function KeyOf(client: string, host: string): Key {
    client + ":" + host
  }

  /** The client of the second pair starts with the first client, and the first host makes up for it. */
  predicate Swallows(c: string, h: string, d: string, g: string) {
    c + ":" <= d && h == d[|c| + 1..] + ":" + g
  }

  lemma SwallowsIff(c: string, h: string, d: string, g: string)
    requires |c| < |d|
    ensures KeyOf(c, h) == KeyOf(d, g) <==> Swallows(c, h, d, g)
  {
    var k1, k2 := KeyOf(c, h), KeyOf(d, g);
    assert k1[..|c| + 1] == c + ":" && k1[|c| + 1..] == h;
    assert k2[..|c| + 1] == d[..|c| + 1] && k2[|c| + 1..] == d[|c| + 1..] + ":" + g;
    if Swallows(c, h, d, g) {
      assert d[..|c| + 1] == c + ":";
      assert k1 == k1[..|c| + 1] + k1[|c| + 1..] == k2[..|c| + 1] + k2[|c| + 1..] == k2;
    }
  }

  /** Two pairs share a key exactly if they are equal or one client swallows the other. */
  lemma KeyIff(c1: string, h1: string, c2: string, h2: string)
    ensures KeyOf(c1, h1) == KeyOf(c2, h2) <==>
            (c1 == c2 && h1 == h2) || Swallows(c1, h1, c2, h2) || Swallows(c2, h2, c1, h1)
  {
    if |c1| < |c2| {
      SwallowsIff(c1, h1, c2, h2);
    } else if |c2| < |c1| {
      SwallowsIff(c2, h2, c1, h1);
    } else {
      var k1, k2 := KeyOf(c1, h1), KeyOf(c2, h2);
      assert k1[..|c1|] == c1 && k1[|c1| + 1..] == h1;
      assert k2[..|c1|] == c2 && k2[|c1| + 1..] == h2;
    }
  }

  lemma ColonInside(d: string, c: string)
    ensures d + ":" <= c ==> ':' in c
  {
    if d + ":" <= c {
      assert c[|d|] == ':';
    }
  }

  /** An IPv4 client shares no key: its text has no colon, and no other address starts with it and one. */
  lemma OwnKey(client: string, host: string, other: string, otherHost: string)
    requires ':' !in client && !(client + ":" <= other)
    ensures KeyOf(client, host) == KeyOf(other, otherHost) <==> client == other && host == otherHost
  {
    KeyIff(client, host, other, otherHost);
    ColonInside(other, client);
  }

  /** Two different IPv6 pairs that share a key. */
  lemma KeyCollision()
    ensures KeyOf("1::2", "3:4::5") == KeyOf("1::2:3", "4::5")
    ensures Swallows("1::2", "3:4::5", "1::2:3", "4::5")
  {
  }
}
