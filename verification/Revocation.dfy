/**
 Revoking one's own grant on an address that others may share.
 */
module Revocation {
  import opened Ledger
  import opened Frps
  import opened Projection
  import Commands
  import Names

  predicate Succeeded(reply: Commands.Reply) { reply.RevokedShared? || reply.RevokedLast? }

  /** Only the live grants of this user on this address change, and none of them stays. */
  ghost predicate OnlyRevokes(gs: seq<Grant>, gs': seq<Grant>, user: string, ip: string, now: int) {
    && |gs'| == |gs|
    && (forall i :: 0 <= i < |gs| && !(gs[i].HeldBy(user, now) && gs[i].ip == ip) ==> gs'[i] == gs[i])
    && (forall g <- gs' :: !(g.HeldBy(user, now) && g.ip == ip))
  }

  lemma RevokedByIsExact(gs: seq<Grant>, user: string, ip: string, now: int)
    ensures OnlyRevokes(gs, RevokedBy(gs, user, ip, now), user, ip, now)
  {
  }

  /** What a successful removal wrote: the entry of the remaining holders, or none. */
  ghost predicate Wrote(w: World, w': World, shared: bool, user: string, ip: string) {
    && w'.now == w.now && w'.books == w.books.(grants := RevokedBy(w.books.grants, user, ip, w.now))
    && var x := EffectiveExpiry(w'.books.grants, ip, w.now);
       && (shared <==> x.Some?)
       && (x.Some? ==> x.value > w.now && w'.table == w.table[ip := Target(w'.books.grants, ip, w.now)])
       && (x.None? ==> w'.table == w.table - {ip})
  }

  lemma RemovingIs(w: World, r: Commands.Request, ip: string, luck: Commands.Luck)
    requires luck.first
    ensures var revoked := w.(books := w.books.(grants := RevokedBy(w.books.grants, r.openId, ip, w.now)));
            Commands.Removing(w, r, ip, luck) ==
            if Commands.OwnOn(w.books.grants, r.openId, ip, w.now) then Commands.Resynced(revoked, ip, luck)
            else (revoked, Commands.NotYours(ip))
  {
    Commands.OwnIsHit(w.books.grants, r.openId, ip, w.now);
  }

  /** Writing the entry of the holders is writing the one a pass aims at. */
  lemma AddedIsEntry(t: Table, active: seq<Grant>, ip: string, now: int, c: Call)
    requires Latest(active, ip).Some? && Latest(active, ip).value > now
    ensures AfterAdd(t, ip, Latest(active, ip).value - now, Names.Label(HolderNames(active, ip)), now, c) ==
            if c.Refused? then t else t[ip := EntryFor(active, ip, now)]
  {
  }

  lemma ResyncSucceeds(w: World, ip: string, luck: Commands.Luck)
    requires Succeeded(Commands.Resynced(w, ip, luck).1)
    ensures luck.second && luck.call.Done?
    ensures var (w', reply) := Commands.Resynced(w, ip, luck);
            var x := EffectiveExpiry(w.books.grants, ip, w.now);
            && w' == w.(table := w'.table) && (reply.RevokedShared? <==> x.Some?)
            && (x.Some? ==> x.value > w.now && w'.table == w.table[ip := Target(w.books.grants, ip, w.now)])
            && (x.None? ==> w'.table == w.table - {ip})
  {
    var active := ActiveGrants(w.books.grants, w.now);
    if Latest(active, ip).Some? && Latest(active, ip).value > w.now {
      AddedIsEntry(w.table, active, ip, w.now, luck.call);
    }
  }

  lemma RemoveWrites(w: World, r: Commands.Request, ip: string, luck: Commands.Luck)
    requires Succeeded(Commands.Removing(w, r, ip, luck).1)
    ensures var (w', reply) := Commands.Removing(w, r, ip, luck);
            Wrote(w, w', reply.RevokedShared?, r.openId, ip)
  {
    var revoked := w.(books := w.books.(grants := RevokedBy(w.books.grants, r.openId, ip, w.now)));
    assert luck.first;
    RemovingIs(w, r, ip, luck);
    ResyncSucceeds(revoked, ip, luck);
  }

  lemma GoalAt(gs: seq<Grant>, ip: string, now: int)
    ensures ip in Goal(gs, now) <==> EffectiveExpiry(gs, ip, now).Some?
    ensures ip in Goal(gs, now) ==> EffectiveExpiry(gs, ip, now).value > now && Goal(gs, now)[ip] == Target(gs, ip, now)
  {
    ExpiryOfActive(gs, ip, now);
  }

  lemma SyncKeepsAgreement(w: World, goal: Table, ip: string)
    requires SameAt(goal, w.table, ip)
    ensures SameAt(w.table, Synced(w, goal).table, ip)
  {
  }

  /** The other grants and the other entries are as before, and the address is left as a pass would leave it. */
  ghost predicate IsExact(w: World, w': World, shared: bool, user: string, ip: string) {
    && OnlyRevokes(w.books.grants, w'.books.grants, user, ip, w.now)
    && w'.books.managed == w.books.managed
    && (forall other :: other != ip ==> SameAt(w.table, w'.table, other))
    && (shared <==> ip in ActiveIPs(w'.books, w'.now))
    && AsAPassLeavesIt(w', Goal(w'.books.grants, w'.now), ip)
  }

  predicate AsAPassLeavesIt(w: World, goal: Table, ip: string) {
    SameAt(goal, w.table, ip) && SameAt(w.table, Synced(w, goal).table, ip)
  }

  lemma WroteTheGoal(w: World, w': World, shared: bool, user: string, ip: string)
    requires Wrote(w, w', shared, user, ip)
    ensures SameAt(Goal(w'.books.grants, w'.now), w'.table, ip)
  {
    GoalAt(w'.books.grants, ip, w'.now);
  }

  lemma WroteOnlyHere(w: World, w': World, shared: bool, user: string, ip: string, other: string)
    requires Wrote(w, w', shared, user, ip) && other != ip
    ensures SameAt(w.table, w'.table, other)
  {
  }

  lemma WroteByActivity(w: World, w': World, shared: bool, user: string, ip: string)
    requires Wrote(w, w', shared, user, ip)
    ensures shared <==> ip in ActiveIPs(w'.books, w'.now)
  {
    ExpiryOfActive(w'.books.grants, ip, w'.now);
  }

  lemma WroteIsExact(w: World, w': World, shared: bool, user: string, ip: string)
    requires Wrote(w, w', shared, user, ip)
    ensures IsExact(w, w', shared, user, ip)
  {
    RevokedByIsExact(w.books.grants, user, ip, w.now);
    forall other | other != ip
      ensures SameAt(w.table, w'.table, other)
    {
      WroteOnlyHere(w, w', shared, user, ip, other);
    }
    WroteByActivity(w, w', shared, user, ip);
    WroteTheGoal(w, w', shared, user, ip);
    SyncKeepsAgreement(w', Goal(w'.books.grants, w'.now), ip);
  }

  /**
   After a successful removal the other grants and the other entries are as before, and
   frps holds the address exactly when another live grant remains, as a pass would leave it.
   */
  lemma RemoveIsExact(w: World, r: Commands.Request, ip: string, luck: Commands.Luck)
    requires Succeeded(Commands.Removing(w, r, ip, luck).1)
    ensures var (w', reply) := Commands.Removing(w, r, ip, luck);
            IsExact(w, w', reply.RevokedShared?, r.openId, ip)
  {
    RemoveWrites(w, r, ip, luck);
    var (w', reply) := Commands.Removing(w, r, ip, luck);
    WroteIsExact(w, w', reply.RevokedShared?, r.openId, ip);
  }

  /** A removal revokes the user's live grants on the address as soon as the ledger can be written, whatever comes after. */
  lemma RemoveRevokes(w: World, r: Commands.Request, ip: string, luck: Commands.Luck)
    ensures var w' := Commands.Removing(w, r, ip, luck).0;
            && w' == w.(books := w.books.(grants := w'.books.grants), table := w'.table)
            && |w'.books.grants| == |w.books.grants|
            && forall i :: 0 <= i < |w.books.grants| ==>
                 w'.books.grants[i] == if luck.first then IfHit(w.books.grants[i], r.openId, ip, w.now) else w.books.grants[i]
  {
  }

  lemma ResyncWrites(w: World, ip: string, luck: Commands.Luck, goal: Table)
    requires ip in goal <==> EffectiveExpiry(w.books.grants, ip, w.now).Some?
    requires ip in goal ==> EffectiveExpiry(w.books.grants, ip, w.now).value > w.now && goal[ip] == Target(w.books.grants, ip, w.now)
    ensures Commands.Resynced(w, ip, luck).0 ==
            w.(table := if !luck.second || (ip in goal && !luck.third) || luck.call.Refused? then w.table
                        else if ip in goal then w.table[ip := goal[ip]]
                        else w.table - {ip})
  {
    if ip in goal {
      AddedIsEntry(w.table, ActiveGrants(w.books.grants, w.now), ip, w.now, luck.call);
    }
  }

  /** The address is settled on frps as the ledger now asks for, if the holders can be read and frps can be reached; else frps is not touched. */
  lemma ResyncSettles(w: World, ip: string, luck: Commands.Luck)
    ensures var goal := Goal(w.books.grants, w.now);
            Commands.Resynced(w, ip, luck).0 ==
            w.(table := if !luck.second || (ip in goal && !luck.third) || luck.call.Refused? then w.table
                        else if ip in goal then w.table[ip := goal[ip]]
                        else w.table - {ip})
  {
    GoalAt(w.books.grants, ip, w.now);
    ResyncWrites(w, ip, luck, Goal(w.books.grants, w.now));
  }

  /** What any removal leaves, also one that stops half-way: frps is touched only after a revocation, and only at this address. */
  lemma RemoveLeaves(w: World, r: Commands.Request, ip: string, luck: Commands.Luck)
    ensures var w' := Commands.Removing(w, r, ip, luck).0;
            var goal := Goal(w'.books.grants, w.now);
            w'.table == if !luck.first || !Commands.OwnOn(w.books.grants, r.openId, ip, w.now) || !luck.second
                           || (ip in goal && !luck.third) || luck.call.Refused? then w.table
                        else if ip in goal then w.table[ip := goal[ip]]
                        else w.table - {ip}
  {
    var revoked := w.(books := w.books.(grants := RevokedBy(w.books.grants, r.openId, ip, w.now)));
    if luck.first {
      RemovingIs(w, r, ip, luck);
      ResyncSettles(revoked, ip, luck);
    }
  }
}
