/**
 Everything that can happen to the ledger: clock ticks and transactions, in any order.
 Every serial and every interleaved run of the gateway is such a run when only the
 ledger is looked at, so what is proved here holds for all of them.
 */
module LedgerRuns {
  import opened Options
  import opened Ledger
  import opened Sets

  datatype Clocked = Clocked(now: int, books: Books)

  datatype Event = Tick | Do(tx: Tx)

  function Step(s: Clocked, e: Event): Clocked {
    match e
    case Tick => s.(now := s.now + 1)
    case Do(tx) => s.(books := Apply(s.books, tx, s.now))
  }

  function After(s: Clocked, es: seq<Event>): Clocked {
    if es == [] then s else Step(After(s, es[..|es| - 1]), es[|es| - 1])
  }

  const EMPTY := Books([], {}, map[], [])

  // ---------- Rows stay, and an inactive grant stays inactive ----------

  predicate SameRow(g: Grant, h: Grant) {
    g.openId == h.openId && g.name == h.name && g.ip == h.ip && g.source == h.source && g.createdAt == h.createdAt
  }

  ghost predicate Grows(s: Clocked, t: Clocked) {
    && s.now <= t.now
    && |s.books.grants| <= |t.books.grants|
    && forall i :: 0 <= i < |s.books.grants| ==>
         && SameRow(s.books.grants[i], t.books.grants[i])
         && (t.books.grants[i].Active(t.now) ==> s.books.grants[i].Active(s.now))
  }

  lemma StepGrows(s: Clocked, e: Event)
    ensures Grows(s, Step(s, e))
  {
  }

  lemma {:induction false} InactiveStaysInactive(s: Clocked, es: seq<Event>)
    ensures Grows(s, After(s, es))
  {
    if es != [] {
      InactiveStaysInactive(s, es[..|es| - 1]);
      StepGrows(After(s, es[..|es| - 1]), es[|es| - 1]);
    }
  }

  // ---------- Active IPs are managed ----------

  /** The addresses a transaction inserts a grant for. */
  function Inserted(b: Books, tx: Tx, now: int): set<string> {
    if Check(b, tx, now).Some? then {}
    else match tx
      case AddGrant(g, _) => {g.ip}
      case CreateAdmin(_, g) => {g.ip}
      case Consume(_, ips, _) => set ip <- ips
      case _ => {}
  }

  lemma NewRowsAreInserted(b: Books, tx: Tx, now: int, i: nat)
    requires |b.grants| <= i < |Apply(b, tx, now).grants|
    ensures Apply(b, tx, now).grants[i].ip in Inserted(b, tx, now)
  {
  }

  lemma OnlyInsertsActivate(b: Books, tx: Tx, now: int)
    ensures ActiveIPs(Apply(b, tx, now), now) <= ActiveIPs(b, now) + Inserted(b, tx, now)
  {
    var b' := Apply(b, tx, now);
    StepGrows(Clocked(now, b), Do(tx));
    forall ip | ip in ActiveIPs(b', now)
      ensures ip in ActiveIPs(b, now) + Inserted(b, tx, now)
    {
      var i :| 0 <= i < |b'.grants| && b'.grants[i].Active(now) && b'.grants[i].ip == ip;
      if i < |b.grants| {
        assert b.grants[i] in b.grants;
      } else {
        NewRowsAreInserted(b, tx, now, i);
      }
    }
  }

  lemma InsertsAreManaged(b: Books, tx: Tx, now: int)
    ensures Inserted(b, tx, now) <= Apply(b, tx, now).managed
    ensures !tx.Forget? ==> b.managed <= Apply(b, tx, now).managed
  {
  }

  /** Only forgetting an address in use can leave an active address unmanaged. */
  lemma ActiveStaysManaged(b: Books, tx: Tx, now: int)
    requires ActiveIPs(b, now) <= b.managed
    ensures ActiveIPs(Apply(b, tx, now), now) <= Apply(b, tx, now).managed
            <==> !(tx.Forget? && tx.ip in ActiveIPs(b, now))
  {
    OnlyInsertsActivate(b, tx, now);
    InsertsAreManaged(b, tx, now);
  }

  // ---------- The limit of active addresses ----------

  /** An accepted insert for a user leaves that user within the limit, whoever granted before. */
  lemma AcceptedWithinLimit(b: Books, tx: Tx, now: int)
    requires Check(b, tx, now).None?
    ensures tx.AddGrant? && tx.max > 0 ==> |HeldIPs(Apply(b, tx, now), tx.grant.openId, now)| <= tx.max
    ensures tx.Consume? && tx.max > 0 ==> |HeldIPs(Apply(b, tx, now), b.tokens[tx.hash].openId, now)| <= tx.max
  {
    match tx
    case AddGrant(g, max) =>
      var others := set h <- b.grants | h.HeldBy(g.openId, now) && h.ip != g.ip :: h.ip;
      HeldAfterAdd(b, g, now);
      UnionSize(others, {g.ip});
      SubsetSize(HeldIPs(Apply(b, tx, now), g.openId, now), others + {g.ip});
    case Consume(h, ips, max) =>
      var targets := Distinct(ips);
      var user := b.tokens[h].openId;
      var others := set g <- b.grants | g.HeldBy(user, now) && g.ip !in targets :: g.ip;
      HeldAfterConsume(b, b.tokens[h], targets, now);
      DistinctSize(targets);
      UnionSize(others, SetOf(targets));
      SubsetSize(HeldIPs(Apply(b, tx, now), user, now), others + SetOf(targets));
    case _ =>
  }

  lemma HeldAfterAdd(b: Books, g: Grant, now: int)
    ensures HeldIPs(b.(grants := b.grants + [g.(revokedAt := None)]), g.openId, now)
         <= (set h <- b.grants | h.HeldBy(g.openId, now) && h.ip != g.ip :: h.ip) + {g.ip}
  {
  }

  lemma HeldAfterConsume(b: Books, t: Token, targets: seq<string>, now: int)
    ensures HeldIPs(b.(grants := b.grants + LinkGrants(t, targets, now)), t.openId, now)
         <= (set g <- b.grants | g.HeldBy(t.openId, now) && g.ip !in targets :: g.ip) + SetOf(targets)
  {
    forall g | g in b.grants + LinkGrants(t, targets, now) && g.ip !in targets
      ensures g in b.grants
    {
    }
  }

  /** Transactions that respect one limit for a user: no admin grant, and every insert is limited. */
  predicate Limited(tx: Tx, user: string, max: int) {
    match tx
    case AddGrant(g, m) => g.openId == user ==> m == max
    case Consume(_, _, m) => m == max
    case CreateAdmin(_, g) => g.openId != user
    case _ => true
  }

  predicate LimitedRun(es: seq<Event>, user: string, max: int) {
    forall e <- es :: e.Do? ==> Limited(e.tx, user, max)
  }

  /** The user a transaction inserts grants for. */
  function InsertsFor(b: Books, tx: Tx): Option<string> {
    match tx
    case AddGrant(g, _) => Some(g.openId)
    case CreateAdmin(_, g) => Some(g.openId)
    case Consume(h, _, _) => if h in b.tokens then Some(b.tokens[h].openId) else None
    case _ => None
  }

  lemma OthersDoNotGrow(b: Books, tx: Tx, now: int, user: string)
    requires InsertsFor(b, tx) != Some(user) || Check(b, tx, now).Some?
    ensures HeldIPs(Apply(b, tx, now), user, now) <= HeldIPs(b, user, now)
  {
    var b' := Apply(b, tx, now);
    StepGrows(Clocked(now, b), Do(tx));
    forall ip | ip in HeldIPs(b', user, now)
      ensures ip in HeldIPs(b, user, now)
    {
      var i :| 0 <= i < |b'.grants| && b'.grants[i].HeldBy(user, now) && b'.grants[i].ip == ip;
      NewRowsAreFor(b, tx, now, i);
      assert b.grants[i] in b.grants;
    }
  }

  lemma NewRowsAreFor(b: Books, tx: Tx, now: int, i: nat)
    requires i < |Apply(b, tx, now).grants|
    ensures i < |b.grants| || (Check(b, tx, now).None? && InsertsFor(b, tx) == Some(Apply(b, tx, now).grants[i].openId))
  {
  }

  lemma TickShrinks(b: Books, user: string, now: int)
    ensures HeldIPs(b, user, now + 1) <= HeldIPs(b, user, now)
  {
  }

  /** Without admin grants for the user the limit holds at every instant of every run. */
  lemma {:induction false} LimitHoldsAlways(s: Clocked, es: seq<Event>, user: string, max: int)
    requires max > 0 && |HeldIPs(s.books, user, s.now)| <= max
    requires LimitedRun(es, user, max)
    ensures var t := After(s, es); |HeldIPs(t.books, user, t.now)| <= max
  {
    if es != [] {
      var last := |es| - 1;
      LimitHoldsAlways(s, es[..last], user, max);
      assert es[last] in es;
      var t := After(s, es[..last]);
      if es[last].Tick? {
        TickShrinks(t.books, user, t.now);
        SubsetSize(HeldIPs(t.books, user, t.now + 1), HeldIPs(t.books, user, t.now));
      } else {
        LimitedStep(t.books, es[last].tx, t.now, user, max);
      }
    }
  }

  lemma LimitedStep(b: Books, tx: Tx, now: int, user: string, max: int)
    requires max > 0 && |HeldIPs(b, user, now)| <= max && Limited(tx, user, max)
    ensures |HeldIPs(Apply(b, tx, now), user, now)| <= max
  {
    if InsertsFor(b, tx) == Some(user) && Check(b, tx, now).None? {
      AcceptedWithinLimit(b, tx, now);
    } else {
      OthersDoNotGrow(b, tx, now, user);
      SubsetSize(HeldIPs(Apply(b, tx, now), user, now), HeldIPs(b, user, now));
    }
  }

  // ---------- Admin grants and the limit ----------

  /** An admin grant gives the user one more live address when the limit is already reached. */
  predicate BreaksLimit(b: Books, tx: Tx, now: int, user: string, max: int) {
    && tx.CreateAdmin? && tx.grant.openId == user && tx.grant.expireAt > now
    && tx.grant.ip !in HeldIPs(b, user, now) && |HeldIPs(b, user, now)| == max
  }

  lemma HeldAfterAdmin(b: Books, actor: string, g: Grant, now: int)
    ensures HeldIPs(Apply(b, CreateAdmin(actor, g), now), g.openId, now) ==
            if g.expireAt > now then HeldIPs(b, g.openId, now) + {g.ip} else HeldIPs(b, g.openId, now)
  {
    var row := g.(revokedAt := None);
    var after := Apply(b, CreateAdmin(actor, g), now);
    assert after.grants == b.grants + [row];
    assert forall h :: h in after.grants <==> h in b.grants || h == row;
    if g.expireAt > now {
      assert row in after.grants && row.HeldBy(g.openId, now);
    }
  }

  lemma AdminBreaksExactly(b: Books, tx: Tx, now: int, user: string, max: int)
    requires |HeldIPs(b, user, now)| <= max && tx.CreateAdmin? && tx.grant.openId == user
    ensures |HeldIPs(Apply(b, tx, now), user, now)| <= max <==> !BreaksLimit(b, tx, now, user, max)
  {
    HeldAfterAdmin(b, tx.actor, tx.grant, now);
    var held := HeldIPs(b, user, now);
    if tx.grant.ip in held {
      assert held + {tx.grant.ip} == held;
    }
  }

  /** Inserts for the user are limited, except those by an admin. */
  predicate LimitedOrAdmin(tx: Tx, user: string, max: int) { tx.CreateAdmin? || Limited(tx, user, max) }

  predicate IsBreak(s: Clocked, e: Event, user: string, max: int) {
    e.Do? && BreaksLimit(s.books, e.tx, s.now, user, max)
  }

  predicate WithinLimit(s: Clocked, user: string, max: int) { |HeldIPs(s.books, user, s.now)| <= max }

  lemma StepBreaksExactly(s: Clocked, e: Event, user: string, max: int)
    requires max > 0 && WithinLimit(s, user, max)
    requires e.Do? ==> LimitedOrAdmin(e.tx, user, max)
    ensures WithinLimit(Step(s, e), user, max) <==> !IsBreak(s, e, user, max)
  {
    if e.Tick? {
      TickShrinks(s.books, user, s.now);
      SubsetSize(HeldIPs(s.books, user, s.now + 1), HeldIPs(s.books, user, s.now));
    } else if e.tx.CreateAdmin? && e.tx.grant.openId == user {
      AdminBreaksExactly(s.books, e.tx, s.now, user, max);
    } else {
      LimitedStep(s.books, e.tx, s.now, user, max);
    }
  }

  ghost predicate WithinAllAlong(s: Clocked, es: seq<Event>, user: string, max: int) {
    forall k: nat :: k <= |es| ==> WithinLimit(After(s, es[..k]), user, max)
  }

  ghost predicate NeverBroken(s: Clocked, es: seq<Event>, user: string, max: int) {
    forall k: nat :: k < |es| ==> !IsBreak(After(s, es[..k]), es[k], user, max)
  }

  lemma AfterSnoc(s: Clocked, es: seq<Event>, e: Event)
    ensures After(s, es + [e]) == Step(After(s, es), e)
  {
    assert (es + [e])[..|es|] == es;
  }

  lemma WithinSnoc(s: Clocked, es: seq<Event>, e: Event, user: string, max: int)
    ensures WithinAllAlong(s, es + [e], user, max) <==>
            WithinAllAlong(s, es, user, max) && WithinLimit(After(s, es + [e]), user, max)
  {
    var more := es + [e];
    assert more[..|more|] == more;
    forall k: nat | k <= |es|
      ensures more[..k] == es[..k]
    {
    }
  }

  lemma LastIsWithin(s: Clocked, es: seq<Event>, user: string, max: int)
    requires WithinAllAlong(s, es, user, max)
    ensures WithinLimit(After(s, es), user, max)
  {
    assert es[..|es|] == es;
  }

  lemma BrokenSnoc(s: Clocked, es: seq<Event>, e: Event, user: string, max: int)
    ensures NeverBroken(s, es + [e], user, max) <==>
            NeverBroken(s, es, user, max) && !IsBreak(After(s, es), e, user, max)
  {
    var more := es + [e];
    assert more[..|es|] == es && more[|es|] == e;
    forall k: nat | k < |es|
      ensures more[..k] == es[..k] && more[k] == es[k]
    {
    }
  }

  /**
   When every other insert for the user is limited, the limit holds at every instant of a run
   exactly when no admin gives the user a new live address while the limit is reached.
   */
  lemma {:induction false} LimitHoldsExactly(s: Clocked, es: seq<Event>, user: string, max: int)
    requires max > 0 && WithinLimit(s, user, max)
    requires forall e <- es :: e.Do? ==> LimitedOrAdmin(e.tx, user, max)
    ensures WithinAllAlong(s, es, user, max) <==> NeverBroken(s, es, user, max)
  {
    if es == [] {
      assert es[..0] == [];
    } else {
      var front, e := es[..|es| - 1], es[|es| - 1];
      assert es == front + [e] && e in es;
      assert forall x <- front :: x in es;
      LimitHoldsExactly(s, front, user, max);
      WithinSnoc(s, front, e, user, max);
      BrokenSnoc(s, front, e, user, max);
      AfterSnoc(s, front, e);
      if WithinAllAlong(s, front, user, max) {
        LastIsWithin(s, front, user, max);
        StepBreaksExactly(After(s, front), e, user, max);
      }
    }
  }

  /** An admin gives a second address to a user who may have one. */
  lemma AdminExceedsLimit(user: string, ip: string, other: string)
    requires ip != other
    ensures var held := Grant(user, "", ip, FeishuCommand, 0, 100, None);
            var b := Apply(EMPTY, AddGrant(held, 1), 0);
            var b' := Apply(b, CreateAdmin("admin", held.(ip := other, source := AdminWeb)), 0);
            |HeldIPs(b, user, 0)| == 1 && |HeldIPs(b', user, 0)| == 2
  {
    var held := Grant(user, "", ip, FeishuCommand, 0, 100, None);
    var b := Apply(EMPTY, AddGrant(held, 1), 0);
    AcceptedFromEmpty(held);
    assert b.grants == [held] && held in b.grants;
    assert HeldIPs(b, user, 0) == {ip};
    HeldAfterAdmin(b, "admin", held.(ip := other, source := AdminWeb), 0);
  }

  lemma AcceptedFromEmpty(g: Grant)
    requires g.revokedAt.None?
    ensures Apply(EMPTY, AddGrant(g, 1), 0).grants == [g]
  {
    assert (set h <- EMPTY.grants | h.HeldBy(g.openId, 0) && h.ip != g.ip :: h.ip) == {};
  }
}
