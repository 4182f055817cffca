/**
 Granting an address that others may share. A grant by chat or by link writes its own
 lifetime to frps, not the longest one of all holders; a pass does that. These lemmas say
 what frps holds after a grant, and exactly when it already holds what a pass would write.
 */
module Granting {
  import opened Options
  import opened Ledger
  import opened Frps
  import opened Projection
  import Authorize
  import Commands
  import Duration
  import LedgerRuns
  import Names
  import Revocation

  // ---------- The effective expiry with a new grant ----------

  function Longer(x: Option<int>, e: int): int {
    if x.Some? && x.value > e then x.value else e
  }

  /** New live grants on an address, all until e, move its effective expiry to e at least. */
  lemma ExpiryWithNew(gs: seq<Grant>, more: seq<Grant>, ip: string, now: int, e: int, k: nat)
    requires k < |more| && more[k].ip == ip
    requires forall g <- more :: g.ip == ip ==> g.expireAt == e && g.Active(now)
    ensures EffectiveExpiry(gs + more, ip, now) == Some(Longer(EffectiveExpiry(gs, ip, now), e))
  {
    assert more[k] in gs + more;
    assert forall g <- gs :: g in gs + more;
    LatestWithNew(ActiveGrants(gs, now), ActiveGrants(gs + more, now), ip, more[k]);
  }

  lemma LatestWithNew(gs: seq<Grant>, hs: seq<Grant>, ip: string, h: Grant)
    requires h in hs && h.ip == ip && forall g <- gs :: g in hs
    requires forall g <- hs :: g in gs || (g.ip == ip ==> g.expireAt == h.expireAt)
    ensures Latest(hs, ip) == Some(Longer(Latest(gs, ip), h.expireAt))
  {
    LatestIsMax(gs, ip);
    LatestIsMax(hs, ip);
  }

  function Max(a: nat, b: nat): nat { if a > b then a else b }

  lemma CutOfMax(a: nat, b: nat)
    ensures Duration.Cut(Max(a, b)) == Duration.Cut(b) <==> Duration.Cut(a) <= Duration.Cut(b)
  {
    if a > b {
      Duration.CutIsMonotone(b, a);
    } else {
      Duration.CutIsMonotone(a, b);
    }
  }

  /** The address shows on frps what a pass would write, as far as its expiry goes. */
  ghost predicate ShowsMaximum(w: World, ip: string) {
    ip in w.table && ip in Goal(w.books.grants, w.now) && w.table[ip].expireAt == Goal(w.books.grants, w.now)[ip].expireAt
  }

  lemma TargetExpiry(gs: seq<Grant>, ip: string, now: int, most: nat)
    requires EffectiveExpiry(gs, ip, now) == Some(now + most) && most > 0
    ensures ip in Goal(gs, now) && Goal(gs, now)[ip].expireAt == now + Duration.Cut(most)
  {
    Revocation.GoalAt(gs, ip, now);
    assert now + most - now == most;
  }

  lemma ShowsMaximumIs(w: World, ip: string, most: nat)
    requires EffectiveExpiry(w.books.grants, ip, w.now) == Some(w.now + most) && most > 0 && ip in w.table
    ensures ShowsMaximum(w, ip) <==> w.table[ip].expireAt == w.now + Duration.Cut(most)
  {
    TargetExpiry(w.books.grants, ip, w.now, most);
  }

  /** What was left of the longest older live grant on the address, zero if there was none. */
  function Left(gs: seq<Grant>, ip: string, now: int): (n: nat)
    ensures n > 0 <==> ip in LiveIPs(gs, now)
  {
    ExpiryOfActive(gs, ip, now);
    var x := EffectiveExpiry(gs, ip, now);
    if x.Some? then x.value - now else 0
  }

  lemma ExpiryIsLeft(gs: seq<Grant>, more: seq<Grant>, ip: string, now: int, ttl: nat, k: nat)
    requires ttl > 0 && k < |more| && more[k].ip == ip
    requires forall g <- more :: g.ip == ip ==> g.expireAt == now + ttl && g.revokedAt.None?
    ensures EffectiveExpiry(gs + more, ip, now) == Some(now + Max(Left(gs, ip, now), ttl))
  {
    ExpiryOfActive(gs, ip, now);
    ExpiryWithNew(gs, more, ip, now, now + ttl, k);
  }

  lemma ShowsMaximumExactly(w: World, ip: string, left: nat, ttl: nat)
    requires ttl > 0 && EffectiveExpiry(w.books.grants, ip, w.now) == Some(w.now + Max(left, ttl))
    requires ip in w.table && w.table[ip].expireAt == w.now + Duration.Cut(ttl)
    ensures ShowsMaximum(w, ip) <==> Duration.Cut(left) <= Duration.Cut(ttl)
  {
    ShowsMaximumIs(w, ip, Max(left, ttl));
    CutOfMax(left, ttl);
    SameShown(w.table[ip].expireAt, w.now, Duration.Cut(left), Duration.Cut(ttl), Duration.Cut(Max(left, ttl)));
  }

  /** The step about any numbers shown. */
  lemma SameShown(expireAt: int, now: int, left: nat, ttl: nat, most: nat)
    requires expireAt == now + ttl && (most == ttl <==> left <= ttl)
    ensures expireAt == now + most <==> left <= ttl
  {
  }

  /** New rows were recorded, and the address of row k is on frps for the lifetime they all have. */
  ghost predicate JustWritten(w: World, gs: seq<Grant>, more: seq<Grant>, now: int, k: nat, ttl: nat) {
    && w.now == now && w.books.grants == gs + more && LastFor(more, now, k, ttl)
    && more[k].ip in w.table && w.table[more[k].ip].expireAt == now + Duration.Cut(ttl)
  }

  predicate LastFor(more: seq<Grant>, now: int, k: nat, ttl: nat) {
    k < |more| && ttl > 0 && forall g <- more :: g.expireAt == now + ttl && g.revokedAt.None?
  }

  lemma WrittenShows(w: World, gs: seq<Grant>, more: seq<Grant>, now: int, k: nat, ttl: nat)
    requires JustWritten(w, gs, more, now, k, ttl)
    ensures ShowsMaximum(w, more[k].ip) <==> Duration.Cut(Left(gs, more[k].ip, now)) <= Duration.Cut(ttl)
  {
    WrittenExpiry(gs, more, now, k, ttl);
    ShowsMaximumExactly(w, more[k].ip, Left(gs, more[k].ip, now), ttl);
  }

  lemma WrittenExpiry(gs: seq<Grant>, more: seq<Grant>, now: int, k: nat, ttl: nat)
    requires LastFor(more, now, k, ttl)
    ensures EffectiveExpiry(gs + more, more[k].ip, now) == Some(now + Max(Left(gs, more[k].ip, now), ttl))
  {
    ExpiryIsLeft(gs, more, more[k].ip, now, ttl, k);
  }

  // ---------- By chat ----------

  function LifetimeOf(cfg: Commands.Config, asked: int): int {
    if asked == 0 then cfg.defaultTTL else asked
  }

  function GrantOf(w: World, r: Commands.Request, ip: string, ttl: int): Grant {
    Grant(r.openId, r.name, ip, FeishuCommand, w.now, w.now + ttl, None)
  }

  /** A granted address is recorded within the user's limit and on frps for its own lifetime; nothing else changes. */
  lemma GrantedIsOnFrps(w: World, cfg: Commands.Config, r: Commands.Request, ip: string, asked: int, luck: Commands.Luck)
    requires Commands.Adding(w, cfg, r, ip, asked, luck).1.Granted?
    ensures var (w', reply) := Commands.Adding(w, cfg, r, ip, asked, luck);
            var ttl := LifetimeOf(cfg, asked);
            && reply == Commands.Granted(ip, ttl) && 0 < ttl <= cfg.maxTTL
            && w'.now == w.now
            && w'.books == w.books.(grants := w.books.grants + [GrantOf(w, r, ip, ttl)], managed := w.books.managed + {ip})
            && w'.table == w.table[ip := Entry(w.now + Duration.Cut(ttl), Names.DisplayName(r.name, r.openId), Gateway)]
            && (cfg.maxActive > 0 ==> |HeldIPs(w'.books, r.openId, w.now)| <= cfg.maxActive)
  {
    var tx := AddGrant(GrantOf(w, r, ip, LifetimeOf(cfg, asked)), cfg.maxActive);
    assert Check(w.books, tx, w.now).None?;
    LedgerRuns.AcceptedWithinLimit(w.books, tx, w.now);
  }

  /**
   After a grant by chat frps shows the maximum over all holders exactly when what was left of
   the older grants is not cut to more than the new lifetime is.
   */
  lemma GrantShowsMaximumExactly(w: World, cfg: Commands.Config, r: Commands.Request, ip: string, asked: int, luck: Commands.Luck)
    requires Commands.Adding(w, cfg, r, ip, asked, luck).1.Granted?
    ensures LifetimeOf(cfg, asked) > 0
    ensures ShowsMaximum(Commands.Adding(w, cfg, r, ip, asked, luck).0, ip) <==>
            Duration.Cut(Left(w.books.grants, ip, w.now)) <= Duration.Cut(LifetimeOf(cfg, asked))
  {
    GrantIsWritten(w, cfg, r, ip, asked, luck);
    var ttl := LifetimeOf(cfg, asked);
    WrittenShows(Commands.Adding(w, cfg, r, ip, asked, luck).0, w.books.grants, [GrantOf(w, r, ip, ttl)], w.now, 0, ttl);
  }

  lemma GrantIsWritten(w: World, cfg: Commands.Config, r: Commands.Request, ip: string, asked: int, luck: Commands.Luck)
    requires Commands.Adding(w, cfg, r, ip, asked, luck).1.Granted?
    ensures LifetimeOf(cfg, asked) > 0
    ensures var ttl := LifetimeOf(cfg, asked);
            JustWritten(Commands.Adding(w, cfg, r, ip, asked, luck).0, w.books.grants, [GrantOf(w, r, ip, ttl)], w.now, 0, ttl)
  {
    GrantedIsOnFrps(w, cfg, r, ip, asked, luck);
  }

  /** One user's short grant hides the longer grant of another: the promise of the maximum fails until the next pass. */
  lemma ShortGrantHidesLonger(ip: string)
    ensures var other := Grant("b", "", ip, FeishuCommand, 0, 100, None);
            var w := World(0, Books([other], {ip}, map[], []), map[ip := Entry(100, "b", Gateway)]);
            var r := Commands.Request("m", "a", "", Commands.AddIP(ip, 10));
            var (w', reply) := Commands.Adding(w, Commands.Config(10, 100, 0), r, ip, 10, Commands.Luck(true, true, true, Done));
            && reply.Granted? && ip in w'.table && w'.table[ip].expireAt == 10
            && EffectiveExpiry(w'.books.grants, ip, 0) == Some(100)
  {
    var other := Grant("b", "", ip, FeishuCommand, 0, 100, None);
    var mine := Grant("a", "", ip, FeishuCommand, 0, 10, None);
    TenIsShown();
    SingleExpiry(other, 0);
    ExpiryWithNew([other], [mine], ip, 0, 10, 0);
    var w := World(0, Books([other], {ip}, map[], []), map[ip := Entry(100, "b", Gateway)]);
    var r := Commands.Request("m", "a", "", Commands.AddIP(ip, 10));
    assert Check(w.books, AddGrant(mine, 0), 0).None?;
    GrantedIsOnFrps(w, Commands.Config(10, 100, 0), r, ip, 10, Commands.Luck(true, true, true, Done));
  }

  lemma TenIsShown()
    ensures Duration.Cut(10) == 10
  {
  }

  lemma SingleExpiry(g: Grant, now: int)
    requires g.Active(now)
    ensures EffectiveExpiry([g], g.ip, now) == Some(g.expireAt)
  {
    LatestIsMax(ActiveGrants([g], now), g.ip);
    assert g in [g];
  }

  // ---------- By link ----------

  ghost predicate DistinctIPs(gs: seq<Grant>) {
    forall i, j :: 0 <= i < j < |gs| ==> gs[i].ip != gs[j].ip
  }

  /** When all calls went through, each address has the entry of its own grant, and all others are as before. */
  lemma {:induction false} AddEachWrites(t: Table, gs: seq<Grant>, operator: string, now: int, calls: string -> Call)
    requires Authorize.AddEach(t, gs, operator, now, calls).1 && DistinctIPs(gs)
    ensures var t' := Authorize.AddEach(t, gs, operator, now, calls).0;
            && (forall i :: 0 <= i < |gs| ==> WrittenFor(t', gs[i], operator, now))
            && forall ip :: (forall i :: 0 <= i < |gs| ==> gs[i].ip != ip) ==> SameAt(t, t', ip)
    decreases |gs|
  {
    if gs != [] {
      var next := Authorize.AddFirst(t, gs[0], operator, now, calls);
      AddEachWrites(next, gs[1..], operator, now, calls);
      WrittenFirst(t, gs[0], operator, now, calls);
      var t' := Authorize.AddEach(t, gs, operator, now, calls).0;
      assert forall i :: 0 <= i < |gs[1..]| ==> gs[1..][i] == gs[i + 1];
      assert SameAt(next, t', gs[0].ip);
      forall i | 0 <= i < |gs|
        ensures WrittenFor(t', gs[i], operator, now)
      {
        if i > 0 {
          assert gs[i] == gs[1..][i - 1];
        }
      }
      forall ip | forall i :: 0 <= i < |gs| ==> gs[i].ip != ip
        ensures SameAt(t, t', ip)
      {
        assert SameAt(next, t', ip);
      }
    }
  }

  predicate WrittenFor(t: Table, g: Grant, operator: string, now: int) {
    g.expireAt > now && g.ip in t && t[g.ip] == Entry(now + Duration.Cut(g.expireAt - now), operator, Gateway)
  }

  lemma WrittenFirst(t: Table, g: Grant, operator: string, now: int, calls: string -> Call)
    requires g.expireAt > now && calls(g.ip).Done?
    ensures WrittenFor(Authorize.AddFirst(t, g, operator, now, calls), g, operator, now)
    ensures forall ip :: ip != g.ip ==> SameAt(t, Authorize.AddFirst(t, g, operator, now, calls), ip)
  {
  }

  /**
   A confirmed link has recorded one grant for each of its addresses, each of them is on frps
   for the lifetime of the link, and no other entry changed. Which of them already show the
   maximum over all holders is decided by the older grants, as `LinkShowsMaximumExactly` says.
   */
  lemma LinkIsOnFrps(w: World, max: int, ip: string, v4: Option<string>, hash: string, db: bool, calls: string -> Call, k: nat)
    requires Authorize.Posted(w, max, ip, v4, hash, db, calls).1.Applied?
    requires k < |Authorize.TargetsOf(ip, v4)|
    ensures var (w', answer) := Authorize.Posted(w, max, ip, v4, hash, db, calls);
            var targets := Authorize.TargetsOf(ip, v4);
            && hash in w.books.tokens && w.books.tokens[hash].Usable(w.now)
            && answer.grants == LinkGrants(w.books.tokens[hash], targets, w.now)
            && w'.books.grants == w.books.grants + answer.grants && w'.now == w.now
            && WrittenFor(w'.table, answer.grants[k], Names.DisplayName(w.books.tokens[hash].name, w.books.tokens[hash].openId), w.now)
            && forall other :: other !in targets ==> SameAt(w.table, w'.table, other)
  {
    var targets := Authorize.TargetsOf(ip, v4);
    TargetsAreDistinct(ip, v4);
    AppliedIs(w, max, ip, v4, hash, db, calls);
    var t := w.books.tokens[hash];
    LinkWrites(w.table, t, targets, w.now, calls);
    assert WrittenFor(Authorize.Posted(w, max, ip, v4, hash, db, calls).0.table, LinkGrants(t, targets, w.now)[k],
                      Names.DisplayName(t.name, t.openId), w.now);
  }

  lemma AppliedIs(w: World, max: int, ip: string, v4: Option<string>, hash: string, db: bool, calls: string -> Call)
    requires Authorize.Posted(w, max, ip, v4, hash, db, calls).1.Applied?
    ensures hash in w.books.tokens && w.books.tokens[hash].Usable(w.now)
    ensures var (w', answer) := Authorize.Posted(w, max, ip, v4, hash, db, calls);
            var t := w.books.tokens[hash];
            var gs := LinkGrants(t, Authorize.TargetsOf(ip, v4), w.now);
            var (table, ok) := Authorize.AddEach(w.table, gs, Names.DisplayName(t.name, t.openId), w.now, calls);
            ok && answer.grants == gs && w'.now == w.now && w'.table == table && w'.books.grants == w.books.grants + gs
  {
    TargetsAreDistinct(ip, v4);
  }

  lemma LinkWrites(t: Table, token: Token, targets: seq<string>, now: int, calls: string -> Call)
    requires forall i, j :: 0 <= i < j < |targets| ==> targets[i] != targets[j]
    requires Authorize.AddEach(t, LinkGrants(token, targets, now), Names.DisplayName(token.name, token.openId), now, calls).1
    ensures var gs, operator := LinkGrants(token, targets, now), Names.DisplayName(token.name, token.openId);
            var t' := Authorize.AddEach(t, gs, operator, now, calls).0;
            && (forall i :: 0 <= i < |gs| ==> WrittenFor(t', gs[i], operator, now))
            && forall other :: other !in targets ==> SameAt(t, t', other)
  {
    var gs, operator := LinkGrants(token, targets, now), Names.DisplayName(token.name, token.openId);
    AddEachWrites(t, gs, operator, now, calls);
    forall other | other !in targets
      ensures SameAt(t, Authorize.AddEach(t, gs, operator, now, calls).0, other)
    {
      assert forall i :: 0 <= i < |gs| ==> gs[i].ip == targets[i];
    }
  }

  lemma TargetsAreDistinct(ip: string, v4: Option<string>)
    ensures Distinct(Authorize.TargetsOf(ip, v4)) == Authorize.TargetsOf(ip, v4)
    ensures var ts := Authorize.TargetsOf(ip, v4); forall i, j :: 0 <= i < j < |ts| ==> ts[i] != ts[j]
  {
    assert Distinct([ip]) == [ip] by {
      assert [ip][..0] == [];
    }
    if v4.Some? && v4.value != ip {
      assert [ip, v4.value][..1] == [ip];
    }
  }

  /** The same for each address of a confirmed link. */
  lemma LinkShowsMaximumExactly(w: World, max: int, ip: string, v4: Option<string>, hash: string, db: bool, calls: string -> Call, k: nat)
    requires Authorize.Posted(w, max, ip, v4, hash, db, calls).1.Applied?
    requires k < |Authorize.TargetsOf(ip, v4)|
    ensures hash in w.books.tokens && w.books.tokens[hash].ttl > 0
    ensures var target := Authorize.TargetsOf(ip, v4)[k];
            ShowsMaximum(Authorize.Posted(w, max, ip, v4, hash, db, calls).0, target) <==>
            Duration.Cut(Left(w.books.grants, target, w.now)) <= Duration.Cut(w.books.tokens[hash].ttl)
  {
    LinkIsWritten(w, max, ip, v4, hash, db, calls, k);
    var t, targets := w.books.tokens[hash], Authorize.TargetsOf(ip, v4);
    WrittenShows(Authorize.Posted(w, max, ip, v4, hash, db, calls).0, w.books.grants, LinkGrants(t, targets, w.now), w.now, k, t.ttl);
  }

  lemma LinkIsWritten(w: World, max: int, ip: string, v4: Option<string>, hash: string, db: bool, calls: string -> Call, k: nat)
    requires Authorize.Posted(w, max, ip, v4, hash, db, calls).1.Applied?
    requires k < |Authorize.TargetsOf(ip, v4)|
    ensures hash in w.books.tokens && w.books.tokens[hash].ttl > 0
    ensures var t := w.books.tokens[hash];
            JustWritten(Authorize.Posted(w, max, ip, v4, hash, db, calls).0, w.books.grants,
                        LinkGrants(t, Authorize.TargetsOf(ip, v4), w.now), w.now, k, t.ttl)
  {
    LinkIsOnFrps(w, max, ip, v4, hash, db, calls, k);
    var t := w.books.tokens[hash];
    LinkGrantsLast(t, Authorize.TargetsOf(ip, v4), w.now);
    RowIsWritten(Authorize.Posted(w, max, ip, v4, hash, db, calls).0, w.books.grants,
                 LinkGrants(t, Authorize.TargetsOf(ip, v4), w.now), w.now, k, t.ttl, Names.DisplayName(t.name, t.openId));
  }

  lemma RowIsWritten(w: World, gs: seq<Grant>, more: seq<Grant>, now: int, k: nat, ttl: int, operator: string)
    requires w.now == now && w.books.grants == gs + more && k < |more| && WrittenFor(w.table, more[k], operator, now)
    requires forall g <- more :: g.expireAt == now + ttl && g.revokedAt.None?
    ensures ttl > 0 && JustWritten(w, gs, more, now, k, ttl)
  {
    assert more[k] in more && more[k].expireAt - now == ttl;
  }

  lemma LinkGrantsLast(t: Token, targets: seq<string>, now: int)
    ensures forall g <- LinkGrants(t, targets, now) :: g.expireAt == now + t.ttl && g.revokedAt.None?
    ensures forall i :: 0 <= i < |targets| ==> LinkGrants(t, targets, now)[i].ip == targets[i]
  {
  }
}
