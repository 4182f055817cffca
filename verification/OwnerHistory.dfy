/**
 Owners over whole runs: when the owner of a connection, read later, is the one the ledger
 gave in the second of the connection.
 */
module OwnerHistory {
  import opened Ledger
  import opened LedgerRuns
  import opened Owners
  import opened Projection
  import AuditHistory
  import Names

  // ---------- The grants a run withdraws ----------

  /** The rows that an event revokes, or shortens so that they no longer cover the moment t. */
  function WithdrawnBy(s: Clocked, e: Event, t: int): set<nat> {
    if e.Tick? || Check(s.books, e.tx, s.now).Some? then {}
    else match e.tx
      case RevokeUser(_, _) => AuditHistory.HitBy(s, e)
      case RevokeAdmin(_, id) => {id}
      case ExtendAdmin(_, id, expireAt) => if expireAt <= t then {id} else {}
      case _ => {}
  }

  function Withdrawn(s: Clocked, es: seq<Event>, t: int): set<nat> {
    if es == [] then {}
    else Withdrawn(s, es[..|es| - 1], t) + WithdrawnBy(After(s, es[..|es| - 1]), es[|es| - 1], t)
  }

  predicate StillCovers(g: Grant, t: int) { g.revokedAt.None? && t < g.expireAt }

  /** One event takes a row that covers t out exactly when it withdraws it, and brings none back. */
  lemma StepWithdraws(s: Clocked, e: Event, i: nat, t: int)
    requires i < |s.books.grants| && t <= s.now
    ensures i < |Step(s, e).books.grants|
    ensures StillCovers(Step(s, e).books.grants[i], t) <==>
            StillCovers(s.books.grants[i], t) && i !in WithdrawnBy(s, e, t)
  {
    if e.Do? && Check(s.books, e.tx, s.now).None? && e.tx.RevokeUser? {
      RevokeUserWithdraws(s, e, i, t);
    }
  }

  lemma RevokeUserWithdraws(s: Clocked, e: Event, i: nat, t: int)
    requires e.Do? && e.tx.RevokeUser? && i < |s.books.grants|
    ensures StillCovers(Step(s, e).books.grants[i], t) <==>
            StillCovers(s.books.grants[i], t) && i !in AuditHistory.HitBy(s, e)
  {
    assert i in AuditHistory.HitBy(s, e) <==> s.books.grants[i].HeldBy(e.tx.openId, s.now) && s.books.grants[i].ip == e.tx.ip;
  }

  lemma {:induction false} RunWithdraws(s: Clocked, es: seq<Event>, i: nat, t: int)
    requires i < |s.books.grants| && t <= s.now
    ensures i < |After(s, es).books.grants| && t <= After(s, es).now
    ensures StillCovers(After(s, es).books.grants[i], t) <==>
            StillCovers(s.books.grants[i], t) && i !in Withdrawn(s, es, t)
  {
    if es != [] {
      RunWithdraws(s, es[..|es| - 1], i, t);
      StepWithdraws(After(s, es[..|es| - 1]), es[|es| - 1], i, t);
    }
  }

  // ---------- New grants do not cover the past ----------

  /** Grants are dated when they are recorded; the callers of the store keep to this. */
  predicate Dated(s: Clocked, e: Event) {
    e.Do? ==> match e.tx
      case AddGrant(g, _) => g.createdAt == s.now
      case CreateAdmin(_, g) => g.createdAt == s.now
      case _ => true
  }

  predicate DatedRun(s: Clocked, es: seq<Event>) {
    es == [] || (DatedRun(s, es[..|es| - 1]) && Dated(After(s, es[..|es| - 1]), es[|es| - 1]))
  }

  lemma NewRowIsDated(s: Clocked, e: Event, i: nat)
    requires Dated(s, e) && |s.books.grants| <= i < |Step(s, e).books.grants|
    ensures Step(s, e).books.grants[i].createdAt == s.now
  {
  }

  /** What is recorded after the second is over is dated later. */
  lemma {:induction false} NewRowsAreLater(s: Clocked, es: seq<Event>, i: nat)
    requires es != [] && es[0].Tick? && DatedRun(s, es)
    requires |s.books.grants| <= i < |After(s, es).books.grants|
    ensures After(s, es).books.grants[i].createdAt > s.now
  {
    var last := |es| - 1;
    var before := After(s, es[..last]);
    StepGrows(before, es[last]);
    if last > 0 {
      TickedOnce(s, es[..last]);
      if i < |before.books.grants| {
        NewRowsAreLater(s, es[..last], i);
      } else {
        NewRowIsDated(before, es[last], i);
      }
    }
  }

  lemma {:induction false} TickedOnce(s: Clocked, es: seq<Event>)
    requires es != [] && es[0].Tick?
    ensures After(s, es).now > s.now
  {
    var last := |es| - 1;
    if last == 0 {
      assert es[..0] == [];
    } else {
      TickedOnce(s, es[..last]);
      StepGrows(After(s, es[..last]), es[last]);
    }
  }

  // ---------- The owner of a second, read later ----------

  predicate CoveredBy(g: Grant, ip: string, t: int, n: string) {
    CoversMoment(g, ip, t) && Names.DisplayName(g.name, g.openId) == n
  }

  /** Row i covers the second under the name n, and the run does not withdraw it. */
  predicate IsKept(s: Clocked, es: seq<Event>, ip: string, n: string, i: nat) {
    i < |s.books.grants| && CoveredBy(s.books.grants[i], ip, s.now, n) && i !in Withdrawn(s, es, s.now)
  }

  ghost predicate Remains(s: Clocked, es: seq<Event>, ip: string, n: string) {
    exists i: nat :: IsKept(s, es, ip, n, i)
  }

  lemma RowCoversLater(s: Clocked, es: seq<Event>, ip: string, n: string, i: nat)
    requires es != [] && es[0].Tick? && DatedRun(s, es) && i < |After(s, es).books.grants|
    ensures CoveredBy(After(s, es).books.grants[i], ip, s.now, n) <==> IsKept(s, es, ip, n, i)
  {
    InactiveStaysInactive(s, es);
    if i < |s.books.grants| {
      RunWithdraws(s, es, i, s.now);
      assert SameRow(s.books.grants[i], After(s, es).books.grants[i]);
    } else {
      NewRowsAreLater(s, es, i);
    }
  }

  /** Once the second is over, a name still counts for it exactly while a grant of the name that covered it was not withdrawn. */
  lemma CoversLaterExactly(s: Clocked, es: seq<Event>, ip: string, n: string)
    requires es != [] && es[0].Tick? && DatedRun(s, es)
    ensures n in CoveringNames(After(s, es).books.grants, ip, s.now) <==> Remains(s, es, ip, n)
  {
    var later := After(s, es).books.grants;
    InactiveStaysInactive(s, es);
    if n in CoveringNames(later, ip, s.now) {
      var i: nat :| i < |later| && CoveredBy(later[i], ip, s.now, n);
      RowCoversLater(s, es, ip, n, i);
    }
    if i: nat :| IsKept(s, es, ip, n, i) {
      RowCoversLater(s, es, ip, n, i);
      assert later[i] in later;
    }
  }

  /** The names of the grants on the address that the run adds. */
  function Newcomers(s: Clocked, es: seq<Event>, ip: string): set<string> {
    var later := After(s, es).books.grants;
    set i: nat | |s.books.grants| <= i < |later| && later[i].ip == ip :: Names.DisplayName(later[i].name, later[i].openId)
  }

  lemma HoldersLater(s: Clocked, es: seq<Event>, ip: string)
    ensures HolderNames(After(s, es).books.grants, ip) == HolderNames(s.books.grants, ip) + Newcomers(s, es, ip)
  {
    var gs, later := s.books.grants, After(s, es).books.grants;
    InactiveStaysInactive(s, es);
    forall n
      ensures n in HolderNames(later, ip) <==> n in HolderNames(gs, ip) + Newcomers(s, es, ip)
    {
      if n in HolderNames(later, ip) {
        var i: nat :| i < |later| && later[i].ip == ip && Names.DisplayName(later[i].name, later[i].openId) == n;
        if i < |gs| {
          assert SameRow(gs[i], later[i]) && gs[i] in gs;
        }
      }
      if n in HolderNames(gs, ip) {
        var i: nat :| i < |gs| && gs[i].ip == ip && Names.DisplayName(gs[i].name, gs[i].openId) == n;
        assert SameRow(gs[i], later[i]) && later[i] in later;
      }
    }
  }

  /**
   Read later, a connection is attributed as the ledger attributed it in its own second exactly
   when every exact owner keeps a covering grant that the run did not revoke or shorten to before
   it; or, if nobody covered the second, when nobody new has held the address since.
   */
  lemma AttributionLastsExactly(s: Clocked, es: seq<Event>, ip: string)
    requires es != [] && es[0].Tick? && DatedRun(s, es)
    ensures AttributionOf(After(s, es).books.grants, ip, s.now) == AttributionOf(s.books.grants, ip, s.now) <==>
            if CoveringNames(s.books.grants, ip, s.now) != {} then
              forall n <- CoveringNames(s.books.grants, ip, s.now) :: Remains(s, es, ip, n)
            else Newcomers(s, es, ip) <= HolderNames(s.books.grants, ip)
  {
    CoveringShrinks(s, es, ip);
    HoldersLater(s, es, ip);
    forall n
      ensures n in CoveringNames(After(s, es).books.grants, ip, s.now) <==> Remains(s, es, ip, n)
    {
      CoversLaterExactly(s, es, ip, n);
    }
  }

  lemma CoveringShrinks(s: Clocked, es: seq<Event>, ip: string)
    requires es != [] && es[0].Tick? && DatedRun(s, es)
    ensures CoveringNames(After(s, es).books.grants, ip, s.now) <= CoveringNames(s.books.grants, ip, s.now)
  {
    forall n | n in CoveringNames(After(s, es).books.grants, ip, s.now)
      ensures n in CoveringNames(s.books.grants, ip, s.now)
    {
      CoversLaterExactly(s, es, ip, n);
      var i: nat :| IsKept(s, es, ip, n, i);
      assert s.books.grants[i] in s.books.grants;
    }
  }

  /** It stays exact exactly while one covering grant is left. */
  lemma ExactLastsExactly(s: Clocked, es: seq<Event>, ip: string)
    requires es != [] && es[0].Tick? && DatedRun(s, es)
    ensures AttributionOf(After(s, es).books.grants, ip, s.now).exact <==> exists n :: Remains(s, es, ip, n)
  {
    forall n
      ensures n in CoveringNames(After(s, es).books.grants, ip, s.now) <==> Remains(s, es, ip, n)
    {
      CoversLaterExactly(s, es, ip, n);
    }
  }
}
