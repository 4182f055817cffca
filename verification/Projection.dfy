/**
 What frps should hold: the ledger projected to one entry for each active IP.
 */
module Projection {
  import opened Options
  import opened Ledger
  import opened Frps
  import Duration
  import Names

  datatype World = World(now: int, books: Books, table: Table)

  /** The next second: what expires then is gone from frps. */
  function Ticked(w: World): World {
    World(w.now + 1, w.books, Prune(w.table, w.now + 1))
  }

  // ---------- The entry of an active address ----------

  /** The latest expiry among the grants on an address. */
  function Latest(gs: seq<Grant>, ip: string): Option<int> {
    if gs == [] then None
    else Later(Latest(gs[..|gs| - 1], ip), gs[|gs| - 1], ip)
  }

  function Later(x: Option<int>, g: Grant, ip: string): Option<int> {
    if g.ip == ip && (x.None? || g.expireAt > x.value) then Some(g.expireAt) else x
  }

  function HolderNames(gs: seq<Grant>, ip: string): set<string> {
    set g <- gs | g.ip == ip :: Names.DisplayName(g.name, g.openId)
  }

  function ActiveGrants(gs: seq<Grant>, now: int): (r: seq<Grant>)
    ensures forall g :: g in r <==> g in gs && g.Active(now)
  {
    if gs == [] then []
    else
      assert gs == gs[..|gs| - 1] + [gs[|gs| - 1]];
      ActiveGrants(gs[..|gs| - 1], now) + if gs[|gs| - 1].Active(now) then [gs[|gs| - 1]] else []
  }

  /** The fold of `Latest` is the maximum, so the order of the grants does not matter. */
  lemma {:induction false} LatestIsMax(gs: seq<Grant>, ip: string)
    ensures Latest(gs, ip).None? <==> forall g <- gs :: g.ip != ip
    ensures Latest(gs, ip).Some? ==> exists g <- gs :: g.ip == ip && g.expireAt == Latest(gs, ip).value
    ensures Latest(gs, ip).Some? ==> forall g <- gs :: g.ip == ip ==> g.expireAt <= Latest(gs, ip).value
  {
    if gs != [] {
      LatestIsMax(gs[..|gs| - 1], ip);
      assert gs == gs[..|gs| - 1] + [gs[|gs| - 1]];
    }
  }

  lemma LatestOfSameGrants(gs: seq<Grant>, hs: seq<Grant>, ip: string)
    requires forall g :: g in gs <==> g in hs
    ensures Latest(gs, ip) == Latest(hs, ip)
  {
    LatestIsMax(gs, ip);
    LatestIsMax(hs, ip);
  }

  /** The latest expiry of the live grants on an address (SELECT MAX). */
  function EffectiveExpiry(gs: seq<Grant>, ip: string, now: int): Option<int> {
    Latest(ActiveGrants(gs, now), ip)
  }

  lemma ExpiryOfActive(gs: seq<Grant>, ip: string, now: int)
    ensures EffectiveExpiry(gs, ip, now).Some? <==> ip in LiveIPs(gs, now)
    ensures EffectiveExpiry(gs, ip, now).Some? ==> EffectiveExpiry(gs, ip, now).value > now
  {
    LatestIsMax(ActiveGrants(gs, now), ip);
  }

  /** It is the greatest expiry of the grants on the address that are not revoked and have not run out. */
  lemma EffectiveExpiryIsMax(gs: seq<Grant>, ip: string, now: int)
    ensures var x := EffectiveExpiry(gs, ip, now);
            && (x.None? <==> forall g <- gs :: g.ip == ip && g.revokedAt.None? ==> g.expireAt <= now)
            && (x.Some? ==> exists g <- gs :: g.ip == ip && g.revokedAt.None? && now < g.expireAt == x.value)
            && (x.Some? ==> forall g <- gs :: g.ip == ip && g.revokedAt.None? ==> g.expireAt <= x.value)
  {
    LatestIsMax(ActiveGrants(gs, now), ip);
    ExpiryOfActive(gs, ip, now);
  }

  /** The entry for an address: until the cut of its latest expiry, under the names of all its holders. */
  ghost function EntryFor(active: seq<Grant>, ip: string, now: int): Entry
    requires Latest(active, ip).Some? && Latest(active, ip).value > now
  {
    Entry(now + Duration.Cut(Latest(active, ip).value - now), Names.Label(HolderNames(active, ip)), Gateway)
  }

  ghost function Target(gs: seq<Grant>, ip: string, now: int): Entry
    requires EffectiveExpiry(gs, ip, now).Some? && EffectiveExpiry(gs, ip, now).value > now
  {
    EntryFor(ActiveGrants(gs, now), ip, now)
  }

  /** One entry for each active address. */
  ghost function Goal(gs: seq<Grant>, now: int): (t: Table)
    ensures t.Keys == LiveIPs(gs, now)
  {
    map ip | ip in LiveIPs(gs, now) :: ExpiryOfActive(gs, ip, now); Target(gs, ip, now)
  }

  // ---------- A reconciliation pass ----------

  function Only(t: Table, ips: set<string>): Table {
    map ip | ip in t && ip in ips :: t[ip]
  }

  /** The world after a complete pass towards `goal`. */
  function Synced(w: World, goal: Table): World {
    w.(books := w.books.(managed := w.books.managed * goal.Keys),
       table := (w.table - (w.books.managed - goal.Keys)) + goal)
  }

  predicate SameAt(t: Table, t': Table, ip: string) {
    (ip in t <==> ip in t') && (ip in t ==> t[ip] == t'[ip])
  }

  predicate OnlyManagedDiffers(b: Books, b': Books) {
    b' == b.(managed := b'.managed)
  }

  /** What a pass towards `goal` may have done when it stops at any call. */
  ghost predicate Partly(w: World, w': World, goal: Table) {
    && w'.now == w.now && OnlyManagedDiffers(w.books, w'.books)
    && w'.books.managed <= w.books.managed
    && (forall ip :: ip in goal ==> SameAt(goal, w'.table, ip) || SameAt(w.table, w'.table, ip))
    && (forall ip :: ip in w.books.managed - goal.Keys ==> ip !in w'.table || SameAt(w.table, w'.table, ip))
    && (forall ip :: ip !in goal && ip !in w.books.managed ==> SameAt(w.table, w'.table, ip))
    && (forall ip :: ip in w.books.managed - w'.books.managed ==> ip !in goal && ip !in w'.table)
  }

  ghost predicate Pass(w: World, w': World, ok: bool) {
    var goal := Goal(w.books.grants, w.now);
    Partly(w, w', goal) && (ok ==> w' == Synced(w, goal))
  }

  lemma OnlyGrows(t: Table, goal: Table, ips: set<string>, ip: string)
    requires ip in goal
    ensures (t + Only(goal, ips))[ip := goal[ip]] == t + Only(goal, ips + {ip})
  {
  }

  /** The removing half of a pass, stopped anywhere. */
  ghost predicate Swept(w: World, w': World, active: set<string>) {
    && w'.now == w.now && OnlyManagedDiffers(w.books, w'.books)
    && w'.books.managed <= w.books.managed && w.books.managed * active <= w'.books.managed
    && (forall ip :: ip !in w.books.managed - active ==> SameAt(w.table, w'.table, ip))
    && (forall ip :: ip !in w'.table || SameAt(w.table, w'.table, ip))
    && (forall ip :: ip in w.books.managed - w'.books.managed ==> ip !in w'.table)
  }

  lemma AddsArePartly(w: World, w': World, goal: Table, ips: set<string>)
    requires w' == w.(table := w.table + Only(goal, ips))
    ensures Partly(w, w', goal)
  {
  }

  lemma SweepIsPartly(w: World, w1: World, w2: World, goal: Table)
    requires w1 == w.(table := w.table + goal)
    requires Swept(w1, w2, goal.Keys)
    ensures Partly(w, w2, goal)
  {
    forall ip | ip in goal
      ensures SameAt(goal, w2.table, ip)
    {
      assert SameAt(w1.table, w2.table, ip);
    }
    forall ip | ip !in goal && ip !in w.books.managed
      ensures SameAt(w.table, w2.table, ip)
    {
      assert SameAt(w1.table, w2.table, ip);
    }
  }

  lemma SweepSyncs(w: World, w1: World, w2: World, goal: Table)
    requires w1 == w.(table := w.table + goal)
    requires w2.now == w1.now && w2.books == w1.books.(managed := w.books.managed * goal.Keys)
    requires w2.table == w1.table - (w.books.managed - goal.Keys)
    ensures w2 == Synced(w, goal)
  {
    assert w2.table == Synced(w, goal).table;
  }

  // ---------- What an entry shows ----------

  /** Someone with a live grant on the address goes by this name, or without a name by this identifier. */
  predicate Holds(gs: seq<Grant>, ip: string, now: int, n: string) {
    exists g <- gs :: g.ip == ip && g.revokedAt.None? && now < g.expireAt && n == if g.name != "" then g.name else g.openId
  }

  lemma HoldersAre(gs: seq<Grant>, ip: string, now: int, n: string)
    ensures n in HolderNames(ActiveGrants(gs, now), ip) <==> Holds(gs, ip, now, n)
  {
    if Holds(gs, ip, now, n) {
      var g :| g in gs && g.ip == ip && g.revokedAt.None? && now < g.expireAt && n == if g.name != "" then g.name else g.openId;
      assert g in ActiveGrants(gs, now);
      assert Names.DisplayName(g.name, g.openId) == n;
    }
    if n in HolderNames(ActiveGrants(gs, now), ip) {
      var g :| g in ActiveGrants(gs, now) && g.ip == ip && Names.DisplayName(g.name, g.openId) == n;
      assert g in gs;
    }
  }

  /** The operator a pass writes for an address lists exactly its holders, each once and in order, unless a name has the separator in it. */
  lemma OperatorListsHolders(gs: seq<Grant>, ip: string, now: int)
    requires ip in Goal(gs, now) && forall n :: Holds(gs, ip, now, n) ==> Names.IsPlain(n)
    ensures var ns := Names.Parts(Goal(gs, now)[ip].operator);
            && (forall n :: n in ns <==> Holds(gs, ip, now, n))
            && forall i, j :: 0 <= i < j < |ns| ==> Names.Before(ns[i], ns[j])
  {
    var names := HolderNames(ActiveGrants(gs, now), ip);
    forall n
      ensures n in names <==> Holds(gs, ip, now, n)
    {
      HoldersAre(gs, ip, now, n);
    }
    ExpiryOfActive(gs, ip, now);
    HoldersExist(gs, ip, now);
    Names.LabelListsNames(names);
  }

  lemma HoldersExist(gs: seq<Grant>, ip: string, now: int)
    requires ip in LiveIPs(gs, now)
    ensures HolderNames(ActiveGrants(gs, now), ip) != {}
  {
    var g :| g in gs && g.Active(now) && g.ip == ip;
    assert Names.DisplayName(g.name, g.openId) in HolderNames(ActiveGrants(gs, now), ip);
  }
}
