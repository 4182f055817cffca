/**
 Changes made in the admin console: a ledger transaction with its audit row, then a
 reconciliation pass whose outcome is written into that row.
 */
module AdminChanges {
  import opened Options
  import opened Ledger
  import opened Projection
  import opened Reconciliation
  import AuditHistory
  import Commands
  import Duration
  import SerialRuns

  datatype Outcome = BadLifetime | Rejected(fault: Fault) | Changed(inSync: bool)

  function WithAudits(w: World, audits: seq<Audit>): World {
    w.(books := w.books.(audits := audits))
  }

  function Marked(audits: seq<Audit>, id: nat, ok: bool, recorded: bool): seq<Audit> {
    if recorded && id < |audits| then audits[id := audits[id].(result := if ok then InSync else NotInSync)] else audits
  }

  /** A pass whose outcome is written into an audit row; `recorded` says whether that write works. */
  ghost predicate AuditedPass(w: World, w': World, id: nat, ok: bool, recorded: bool) {
    && Pass(w, WithAudits(w', w.books.audits), ok)
    && w'.books.audits == Marked(w.books.audits, id, ok, recorded)
  }

  /** The world after the transaction alone. */
  function Entered(w: World, tx: Tx): World
    requires Check(w.books, tx, w.now).None?
  {
    w.(books := Effect(w.books, tx, w.now))
  }

  ghost predicate Carried(w: World, w': World, tx: Tx, db: bool, recorded: bool, o: Outcome) {
    match if db then Check(w.books, tx, w.now) else Some(DbError)
    case Some(fault) => w' == w && o == Rejected(fault)
    case None => o.Changed? && AuditedPass(Entered(w, tx), w', |w.books.audits|, o.inSync, recorded)
  }

  /** The seconds a lifetime text asks for, if it is positive and not above the limit. */
  function Lifetime(raw: string, maxTTL: int): Option<int> {
    var r := Duration.ParseText(raw);
    if r.Ok? && 0 < r.length <= maxTTL then Some(r.length / Duration.SECOND) else None
  }

  function Extension(actor: string, id: nat, now: int, ttl: int): Tx {
    ExtendAdmin(actor, id, now + ttl)
  }

  class Console {
    const reconciler: Reconciler
    const maxTTL: int

    constructor (reconciler: Reconciler, maxTTL: int)
      ensures this.reconciler == reconciler && this.maxTTL == maxTTL
    {
      this.reconciler, this.maxTTL := reconciler, maxTTL;
    }

    function View(now: int): World
      reads reconciler.store, reconciler.client
    {
      reconciler.View(now)
    }

    method ReconcileAudit(auditId: nat, now: int, w: Weather, recorded: bool) returns (ok: bool)
      modifies reconciler.store`managed, reconciler.store`audits, reconciler.client`table
      ensures AuditedPass(old(View(now)), View(now), auditId, ok, recorded)
    {
      ghost var start := View(now);
      ok := reconciler.Reconcile(now, w);
      ghost var passed := View(now);
      reconciler.store.SetAdminAuditResult(auditId, if ok then InSync else NotInSync, recorded, now);
      assert WithAudits(View(now), start.books.audits) == passed;
    }

    /** What follows the transaction of a change. */
    method WithMutation(ghost start: World, ghost tx: Tx, ghost db: bool, fault: Option<Fault>, auditId: nat,
                        now: int, w: Weather, recorded: bool)
      returns (o: Outcome)
      requires start.now == now && View(now) == World(now, reconciler.store.State(), start.table)
      requires Committed(start.books, reconciler.store.State(), tx, now, db, fault) && auditId == |start.books.audits|
      modifies reconciler.store`managed, reconciler.store`audits, reconciler.client`table
      ensures Carried(start, View(now), tx, db, recorded, o)
    {
      if fault.Some? {
        return Rejected(fault.value);
      }
      var ok := ReconcileAudit(auditId, now, w, recorded);
      return Changed(ok);
    }

    method AddGrant(actor: string, g: Grant, raw: string, now: int, db: bool, w: Weather, recorded: bool)
      returns (o: Outcome)
      modifies reconciler.store, reconciler.client`table
      ensures match Lifetime(raw, maxTTL)
              case None => o.BadLifetime? && View(now) == old(View(now))
              case Some(ttl) =>
                Carried(old(View(now)), View(now), CreateAdmin(actor, g.(createdAt := now, expireAt := now + ttl)), db, recorded, o)
    {
      var seconds := Lifetime(raw, maxTTL);
      if seconds.None? {
        return BadLifetime;
      }
      o := CreateGrant(actor, g.(createdAt := now, expireAt := now + seconds.value), now, db, w, recorded);
    }

    method CreateGrant(actor: string, g: Grant, now: int, db: bool, w: Weather, recorded: bool) returns (o: Outcome)
      modifies reconciler.store, reconciler.client`table
      ensures Carried(old(View(now)), View(now), CreateAdmin(actor, g), db, recorded, o)
    {
      ghost var start := View(now);
      var fault, auditId := reconciler.store.CreateAdminGrant(actor, g, now, db);
      o := WithMutation(start, CreateAdmin(actor, g), db, fault, auditId, now, w, recorded);
    }

    method ExtendGrant(actor: string, id: nat, raw: string, now: int, db: bool, w: Weather, recorded: bool)
      returns (o: Outcome)
      modifies reconciler.store, reconciler.client`table
      ensures match Lifetime(raw, maxTTL)
              case None => o.BadLifetime? && View(now) == old(View(now))
              case Some(ttl) => Carried(old(View(now)), View(now), Extension(actor, id, now, ttl), db, recorded, o)
    {
      var seconds := Lifetime(raw, maxTTL);
      if seconds.None? {
        return BadLifetime;
      }
      o := ExtendFor(actor, id, seconds.value, now, db, w, recorded);
    }

    method ExtendFor(actor: string, id: nat, ttl: int, now: int, db: bool, w: Weather, recorded: bool)
      returns (o: Outcome)
      modifies reconciler.store, reconciler.client`table
      ensures Carried(old(View(now)), View(now), Extension(actor, id, now, ttl), db, recorded, o)
    {
      ghost var start := View(now);
      var fault, auditId := reconciler.store.ExtendAdminGrant(actor, id, now + ttl, now, db);
      o := WithMutation(start, Extension(actor, id, now, ttl), db, fault, auditId, now, w, recorded);
    }

    method RevokeGrant(actor: string, id: nat, now: int, db: bool, w: Weather, recorded: bool) returns (o: Outcome)
      modifies reconciler.store, reconciler.client`table
      ensures Carried(old(View(now)), View(now), RevokeAdmin(actor, id), db, recorded, o)
    {
      ghost var start := View(now);
      var fault, auditId := reconciler.store.RevokeAdminGrant(actor, id, now, db);
      o := WithMutation(start, RevokeAdmin(actor, id), db, fault, auditId, now, w, recorded);
    }
  }

  // ---------- What the result in an audit row means ----------

  lemma MarkedIs(audits: seq<Audit>, a: Audit, ok: bool, recorded: bool)
    requires a.result.Recorded?
    ensures var marked := Marked(audits + [a], |audits|, ok, recorded);
            && |marked| == |audits| + 1 && marked[..|audits|] == audits
            && marked[|audits|] == a.(result := if !recorded then SyncResult.Recorded else if ok then InSync else NotInSync)
  {
  }

  lemma OneRow(b: Books, tx: Tx, now: int)
    requires AuditHistory.IsAdminChange(tx) && Check(b, tx, now).None?
    ensures var b' := Effect(b, tx, now);
            && |b'.audits| == |b.audits| + 1 && b'.audits == b.audits + [b'.audits[|b.audits|]]
            && b'.audits[|b.audits|].result.Recorded?
  {
  }

  /**
   The ledger keeps a change whatever becomes of the pass, and its audit row says synced
   exactly when the pass went through and could be recorded.
   */
  lemma RowTellsTheOutcome(w: World, w': World, tx: Tx, recorded: bool, o: Outcome)
    requires AuditHistory.IsAdminChange(tx) && Carried(w, w', tx, true, recorded, o) && o.Changed?
    ensures w'.books.grants == Apply(w.books, tx, w.now).grants
    ensures |w'.books.audits| == |w.books.audits| + 1 && w'.books.audits[..|w.books.audits|] == w.books.audits
    ensures w'.books.audits[|w.books.audits|].result ==
            if !recorded then SyncResult.Recorded else if o.inSync then InSync else NotInSync
  {
    OneRow(w.books, tx, w.now);
    MarkedIs(w.books.audits, Effect(w.books, tx, w.now).audits[|w.books.audits|], o.inSync, recorded);
  }

  lemma CarriedPassed(w: World, w': World, tx: Tx, recorded: bool, o: Outcome)
    requires Carried(w, w', tx, true, recorded, o) && o.Changed?
    ensures Pass(Entered(w, tx), WithAudits(w', Effect(w.books, tx, w.now).audits), o.inSync)
  {
  }

  /** A change is the transaction, the pass and the mark on the audit row as steps of a serial run. */
  lemma CarriedIsARun(cfg: Commands.Config, w: World, w': World, tx: Tx, recorded: bool, o: Outcome)
    requires AuditHistory.IsAdminChange(tx) && Carried(w, w', tx, true, recorded, o) && o.Changed?
    ensures var entered := Entered(w, tx);
            var passed := WithAudits(w', entered.books.audits);
            var mark := SetResult(|w.books.audits|, if o.inSync then InSync else NotInSync);
            && SerialRuns.Next(cfg, w, SerialRuns.Record(tx), entered)
            && SerialRuns.Next(cfg, entered, SerialRuns.Reconcile(o.inSync), passed)
            && if recorded then SerialRuns.Next(cfg, passed, SerialRuns.Record(mark), w') else w' == passed
  {
    CarriedPassed(w, w', tx, recorded, o);
    OneRow(w.books, tx, w.now);
  }

  lemma PassGoal(w: World, w': World)
    requires Pass(w, w', true)
    ensures w' == Synced(w, Goal(w.books.grants, w.now)) && w'.now == w.now && w'.books.grants == w.books.grants
  {
  }

  /** A row that says synced is right: frps held exactly what the ledger asked for, and nothing else of the gateway's. */
  lemma SyncedRowIsTrue(w: World, w': World, tx: Tx, recorded: bool, o: Outcome)
    requires AuditHistory.IsAdminChange(tx) && SerialRuns.Sound(w)
    requires Carried(w, w', tx, true, recorded, o) && o.Changed?
    requires |w'.books.audits| > |w.books.audits| && w'.books.audits[|w.books.audits|].result == InSync
    ensures SerialRuns.Recovered(Entered(w, tx), w')
  {
    RowTellsTheOutcome(w, w', tx, recorded, o);
    CarriedPassed(w, w', tx, recorded, o);
    var start, passed := Entered(w, tx), WithAudits(w', Effect(w.books, tx, w.now).audits);
    SerialRuns.RecordStaysSound(w, tx);
    PassGoal(start, passed);
    SerialRuns.GoalIsLive(start.books.grants, start.now);
    SerialRuns.SyncRecovers(start, Goal(start.books.grants, start.now));
    SameRecovery(start, passed, w');
  }

  lemma SameRecovery(w: World, w1: World, w2: World)
    requires SerialRuns.Recovered(w, w1) && w1.now == w2.now && w1.table == w2.table
    requires w1.books.grants == w2.books.grants && w1.books.managed == w2.books.managed
    ensures SerialRuns.Recovered(w, w2)
  {
  }

  // ---------- Lifetimes ----------

  /** A lifetime is accepted exactly when its text reads as a positive length up to the limit, and counts in whole seconds. */
  lemma LifetimeExactly(raw: string, maxTTL: int, seconds: int)
    ensures Lifetime(raw, maxTTL) == Some(seconds) <==>
            && Duration.ParseText(raw).Ok? && 0 < Duration.ParseText(raw).length <= maxTTL
            && seconds * 1_000_000_000 <= Duration.ParseText(raw).length < (seconds + 1) * 1_000_000_000
  {
  }

  /** An extended grant ends that many seconds from now. */
  lemma ExtensionEnds(w: World, w': World, actor: string, id: nat, ttl: int, recorded: bool, o: Outcome)
    requires Carried(w, w', Extension(actor, id, w.now, ttl), true, recorded, o) && o.Changed?
    ensures id < |w.books.grants| && w'.books.grants == w.books.grants[id := w.books.grants[id].(expireAt := w.now + ttl)]
  {
    RowTellsTheOutcome(w, w', Extension(actor, id, w.now, ttl), recorded, o);
  }
}
