/**
 One reconciliation pass. A remote call is answered, refused or lost as the `Weather` of
 the pass says; a database call works or fails. The clock stands still within the pass;
 `Interleaving` lets it run.
 */
module Reconciliation {
  import opened Options
  import opened Ledger
  import opened Frps
  import opened Projection
  import Duration
  import Names

  /** What every call of one reconciliation pass will meet. */
  datatype Weather = Weather(snapshot: bool, adds: string -> Call, listing: bool,
                             removes: string -> Call, forgets: string -> bool)

  predicate AllAdded(w: Weather, ips: set<string>) { forall ip <- ips :: w.adds(ip).Done? }

  predicate AllRemoved(w: Weather, ips: set<string>) { forall ip <- ips :: w.removes(ip).Done? && w.forgets(ip) }

  /** No call the pass has to make fails. */
  predicate Clear(w: Weather, active: set<string>, managed: set<string>) {
    w.snapshot && w.listing && AllAdded(w, active) && AllRemoved(w, managed - active)
  }

  type Expiries = map<string, int>

  type Owners = map<string, set<string>>

  function WithExpiry(m: Expiries, g: Grant): Expiries {
    if g.ip !in m || g.expireAt > m[g.ip] then m[g.ip := g.expireAt] else m
  }

  function WithOwner(owners: Owners, g: Grant): Owners {
    var names := if g.ip in owners then owners[g.ip] else {};
    owners[g.ip := names + {Names.DisplayName(g.name, g.openId)}]
  }

  /** The two maps of a pass, over grants in any order. */
  ghost predicate Folded(gs: seq<Grant>, m: Expiries, owners: Owners) {
    && (forall ip :: Latest(gs, ip) == if ip in m then Some(m[ip]) else None)
    && (forall ip :: HolderNames(gs, ip) == if ip in owners then owners[ip] else {})
    && m.Keys == owners.Keys
  }

  lemma ExpiryStep(gs: seq<Grant>, g: Grant, m: Expiries, ip: string)
    requires Latest(gs, ip) == if ip in m then Some(m[ip]) else None
    ensures var m' := WithExpiry(m, g); Latest(gs + [g], ip) == if ip in m' then Some(m'[ip]) else None
  {
    assert (gs + [g])[..|gs|] == gs;
  }

  lemma OwnerStep(gs: seq<Grant>, g: Grant, owners: Owners, ip: string)
    requires HolderNames(gs, ip) == if ip in owners then owners[ip] else {}
    ensures var owners' := WithOwner(owners, g); HolderNames(gs + [g], ip) == if ip in owners' then owners'[ip] else {}
  {
    assert HolderNames(gs + [g], ip) ==
           HolderNames(gs, ip) + if g.ip == ip then {Names.DisplayName(g.name, g.openId)} else {};
  }

  lemma FoldStep(gs: seq<Grant>, g: Grant, m: Expiries, owners: Owners)
    requires Folded(gs, m, owners)
    ensures Folded(gs + [g], WithExpiry(m, g), WithOwner(owners, g))
  {
    var m', owners' := WithExpiry(m, g), WithOwner(owners, g);
    forall ip
      ensures Latest(gs + [g], ip) == if ip in m' then Some(m'[ip]) else None
    {
      ExpiryStep(gs, g, m, ip);
    }
    forall ip
      ensures HolderNames(gs + [g], ip) == if ip in owners' then owners'[ip] else {}
    {
      OwnerStep(gs, g, owners, ip);
    }
    assert m'.Keys == m.Keys + {g.ip};
  }

  lemma FoldedKeys(gs: seq<Grant>, now: int, m: Expiries, owners: Owners)
    requires Folded(ActiveGrants(gs, now), m, owners)
    ensures m.Keys == LiveIPs(gs, now)
    ensures forall ip :: ip in m ==> EffectiveExpiry(gs, ip, now) == Some(m[ip])
  {
    forall ip
      ensures ip in m <==> ip in LiveIPs(gs, now)
    {
      ExpiryOfActive(gs, ip, now);
    }
  }

  /** Each entry of a goal comes from the two maps. */
  ghost predicate Explains(m: Expiries, owners: Owners, goal: Table, now: int) {
    m.Keys == owners.Keys == goal.Keys && forall ip :: ip in m ==> IsEntry(goal[ip], m[ip], owners[ip], now)
  }

  ghost predicate IsEntry(e: Entry, expiry: int, names: set<string>, now: int) {
    expiry > now && e == Entry(now + Duration.Cut(expiry - now), Names.Label(names), Gateway)
  }

  lemma FoldExplainsGoal(gs: seq<Grant>, now: int, m: Expiries, owners: Owners)
    requires Folded(ActiveGrants(gs, now), m, owners)
    ensures Explains(m, owners, Goal(gs, now), now)
  {
    FoldedKeys(gs, now, m, owners);
    forall ip | ip in m
      ensures IsEntry(Goal(gs, now)[ip], m[ip], owners[ip], now)
    {
      FoldExplainsEntry(gs, now, m, owners, ip);
    }
  }

  lemma FoldExplainsEntry(gs: seq<Grant>, now: int, m: Expiries, owners: Owners, ip: string)
    requires Folded(ActiveGrants(gs, now), m, owners) && ip in m
    ensures EffectiveExpiry(gs, ip, now).Some? && EffectiveExpiry(gs, ip, now).value > now
    ensures IsEntry(Target(gs, ip, now), m[ip], owners[ip], now)
  {
    ExpiryOfActive(gs, ip, now);
  }

  class Reconciler {
    const store: Store
    const client: Client

    constructor (store: Store, client: Client)
      ensures this.store == store && this.client == client
    {
      this.store, this.client := store, client;
    }

    function View(now: int): World
      reads store, client
    {
      World(now, store.State(), client.table)
    }

    /** One pass over the ledger and frps; it stops at the first call that fails. */
    method Reconcile(now: int, w: Weather) returns (ok: bool)
      modifies store`managed, client`table
      ensures Pass(old(View(now)), View(now), ok)
      ensures ok <==> Clear(w, LiveIPs(old(store.grants), now), old(store.managed))
    {
      if !w.snapshot {
        return false;
      }
      var m, owners := Fold(ActiveGrants(store.grants, now));
      FoldExplainsGoal(store.grants, now, m, owners);
      ok := Bring(now, m, owners, w, Goal(store.grants, now));
    }

    /** The two loops of calls, towards the goal the maps explain. */
    method Bring(now: int, m: Expiries, owners: Owners, w: Weather, ghost goal: Table) returns (ok: bool)
      requires Explains(m, owners, goal, now)
      modifies store`managed, client`table
      ensures Partly(old(View(now)), View(now), goal) && (ok ==> View(now) == Synced(old(View(now)), goal))
      ensures ok <==> w.listing && AllAdded(w, m.Keys) && AllRemoved(w, old(store.managed) - m.Keys)
    {
      ghost var start := View(now);
      ghost var done;
      ok, done := AddAll(now, m, owners, w, goal);
      ghost var added := View(now);
      AddsArePartly(start, added, goal, done);
      if !ok {
        return;
      }
      assert Only(goal, done) == goal;
      if !w.listing {
        return false;
      }
      ok := RemoveStale(now, m.Keys, w);
      SweepIsPartly(start, added, View(now), goal);
      if ok {
        SweepSyncs(start, added, View(now), goal);
      }
    }

    /** The first loop of a pass: latest expiry and holders for each address. */
    static method Fold(gs: seq<Grant>) returns (m: Expiries, owners: Owners)
      ensures Folded(gs, m, owners)
    {
      m, owners := map[], map[];
      for i := 0 to |gs|
        invariant Folded(gs[..i], m, owners)
      {
        assert gs[..i + 1] == gs[..i] + [gs[i]];
        FoldStep(gs[..i], gs[i], m, owners);
        m := WithExpiry(m, gs[i]);
        owners := WithOwner(owners, gs[i]);
      }
      assert gs[..|gs|] == gs;
    }

    method AddAll(now: int, m: Expiries, owners: Owners, w: Weather, ghost goal: Table)
      returns (ok: bool, ghost done: set<string>)
      requires Explains(m, owners, goal, now)
      modifies client`table
      ensures done <= m.Keys && (ok ==> done == m.Keys)
      ensures ok <==> AllAdded(w, m.Keys)
      ensures client.table == old(client.table) + Only(goal, done)
    {
      var todo := m.Keys;
      done := {};
      ghost var base := client.table;
      assert base + Only(goal, done) == base;
      while todo != {}
        invariant done <= m.Keys && todo == m.Keys - done && AllAdded(w, done)
        invariant client.table == base + Only(goal, done)
      {
        var ip :| ip in todo;
        assert IsEntry(goal[ip], m[ip], owners[ip], now);
        ok, done := AddOne(now, ip, m[ip], owners[ip], w.adds(ip), goal, base, done);
        if !ok {
          return;
        }
        todo := todo - {ip};
      }
      return true, done;
    }

    /** One call of the loop, after the addresses in `done`. */
    method AddOne(now: int, ip: string, expiry: int, names: set<string>, c: Call,
                  ghost goal: Table, ghost base: Table, ghost done: set<string>)
      returns (ok: bool, ghost done': set<string>)
      requires ip in goal && IsEntry(goal[ip], expiry, names, now)
      requires client.table == base + Only(goal, done)
      modifies client`table
      ensures done' == (if c.Refused? then done else done + {ip})
      ensures client.table == base + Only(goal, done')
      ensures ok <==> c.Done?
    {
      var operator := Names.JoinNames(names);
      OnlyGrows(base, goal, done, ip);
      ok := client.Add(ip, expiry - now, operator, now, c);
      done' := if c.Refused? then done else done + {ip};
    }

    method RemoveStale(now: int, active: set<string>, w: Weather) returns (ok: bool)
      modifies store`managed, client`table
      ensures Swept(old(View(now)), View(now), active)
      ensures ok <==> AllRemoved(w, old(store.managed) - active)
      ensures ok ==> store.managed == old(store.managed) * active
      ensures ok ==> client.table == old(client.table) - (old(store.managed) - active)
    {
      var todo := store.managed;
      ghost var gone: set<string> := {};
      while todo != {}
        invariant gone <= old(store.managed) - active && AllRemoved(w, gone)
        invariant todo <= old(store.managed) && old(store.managed) - todo - active <= gone
        invariant client.table == old(client.table) - gone
        invariant store.managed == old(store.managed) - gone
      {
        var ip :| ip in todo;
        todo := todo - {ip};
        if ip !in active {
          var r := client.Remove(ip, w.removes(ip));
          if r.Failed? {
            return false;
          }
          var fault := store.ForgetManagedIP(ip, w.forgets(ip), now);
          if fault.Some? {
            return false;
          }
          gone := gone + {ip};
        }
      }
      return true;
    }
  }
}
