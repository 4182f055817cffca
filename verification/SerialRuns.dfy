/**
 Serial runs of the whole gateway: commands, confirmed links, admin changes and
 reconciliation passes, one after the other, each of them possibly half done, while the
 clock ticks, frps loses its table and people edit it by hand.
 */
module SerialRuns {
  import opened Options
  import opened Ledger
  import opened Frps
  import opened Projection
  import Authorize
  import Commands
  import Duration
  import LedgerRuns
  import Names

  datatype Event =
    | Tick
    | Chat(request: Commands.Request, luck: Commands.Luck)
    | Click(client: string, v4: Option<string>, hash: string, db: bool, calls: string -> Call)
    | Record(tx: Tx)
    | Reconcile(ok: bool)
    | LoseTable(kept: set<string>)
    | HandAdd(ip: string, entry: Entry)
    | HandRemove(ip: string)

  predicate IsRecorded(tx: Tx) {
    tx.CreateAdmin? || tx.ExtendAdmin? || tx.RevokeAdmin? || tx.SetResult? || tx.CreateToken?
  }

  ghost predicate Next(cfg: Commands.Config, w: World, e: Event, w': World) {
    match e
    case Tick => w' == Ticked(w)
    case Chat(r, luck) => w' == Commands.Handled(w, cfg, r, luck).0
    case Click(ip, v4, hash, db, calls) => w' == Authorize.Posted(w, cfg.maxActive, ip, v4, hash, db, calls).0
    case Record(tx) => IsRecorded(tx) && w' == w.(books := Apply(w.books, tx, w.now))
    case Reconcile(ok) => Pass(w, w', ok)
    case LoseTable(kept) => w' == w.(table := Only(w.table, kept))
    case HandAdd(ip, entry) => entry.writer.Hand? && entry.expireAt > w.now && w' == w.(table := w.table[ip := entry])
    case HandRemove(ip) => w' == w.(table := w.table - {ip})
  }

  ghost predicate IsRun(cfg: Commands.Config, ws: seq<World>, es: seq<Event>) {
    |ws| == |es| + 1 && forall i :: 0 <= i < |es| ==> Next(cfg, ws[i], es[i], ws[i + 1])
  }

  // ---------- What every serial run keeps ----------

  /** Active addresses and the gateway's own entries are managed, and frps holds live entries only. */
  ghost predicate Sound(w: World) {
    && ActiveIPs(w.books, w.now) <= w.books.managed
    && OwnEntriesManaged(w.table, w.books.managed)
    && Alive(w.table, w.now)
  }

  predicate OwnEntriesManaged(t: Table, managed: set<string>) {
    forall ip <- t :: t[ip].writer.Gateway? ==> ip in managed
  }

  predicate Alive(t: Table, now: int) {
    forall ip <- t :: t[ip].expireAt > now
  }

  lemma TickStaysSound(w: World)
    requires Sound(w)
    ensures Sound(Ticked(w))
  {
    assert ActiveIPs(w.books, w.now + 1) <= ActiveIPs(w.books, w.now);
  }

  lemma RecordStaysSound(w: World, tx: Tx)
    requires Sound(w) && !tx.Forget?
    ensures Sound(w.(books := Apply(w.books, tx, w.now)))
  {
    LedgerRuns.ActiveStaysManaged(w.books, tx, w.now);
    LedgerRuns.InsertsAreManaged(w.books, tx, w.now);
  }

  ghost predicate GoodTable(t: Table, managed: set<string>, now: int) {
    OwnEntriesManaged(t, managed) && Alive(t, now)
  }

  lemma AfterAddStays(t: Table, ip: string, ttl: int, operator: string, now: int, c: Call, managed: set<string>)
    requires GoodTable(t, managed, now) && ip in managed
    ensures GoodTable(AfterAdd(t, ip, ttl, operator, now, c), managed, now)
  {
    if ttl > 0 {
      Duration.CutBounds(ttl);
    }
  }

  lemma AddFirstStays(t: Table, g: Grant, operator: string, now: int, calls: string -> Call, managed: set<string>)
    requires GoodTable(t, managed, now) && g.ip in managed
    ensures GoodTable(Authorize.AddFirst(t, g, operator, now, calls), managed, now)
  {
    AfterAddStays(t, g.ip, g.expireAt - now, operator, now, calls(g.ip), managed);
  }

  lemma {:induction false} AddEachStays(t: Table, gs: seq<Grant>, operator: string, now: int, calls: string -> Call, managed: set<string>)
    requires GoodTable(t, managed, now) && forall i :: 0 <= i < |gs| ==> gs[i].ip in managed
    ensures GoodTable(Authorize.AddEach(t, gs, operator, now, calls).0, managed, now)
    decreases |gs|
  {
    if gs != [] {
      AddFirstStays(t, gs[0], operator, now, calls, managed);
      AddEachStays(Authorize.AddFirst(t, gs[0], operator, now, calls), gs[1..], operator, now, calls, managed);
    }
  }

  lemma ChatStaysSound(cfg: Commands.Config, w: World, r: Commands.Request, luck: Commands.Luck)
    requires Sound(w)
    ensures Sound(Commands.Handled(w, cfg, r, luck).0)
  {
    match r.command
    case AddIP(ip, asked) => AddStaysSound(cfg, w, r, ip, asked, luck);
    case RemoveIP(ip) => RemoveStaysSound(w, r, ip, luck);
    case _ =>
  }

  lemma AddStaysSound(cfg: Commands.Config, w: World, r: Commands.Request, ip: string, asked: int, luck: Commands.Luck)
    requires Sound(w)
    ensures Sound(Commands.Adding(w, cfg, r, ip, asked, luck).0)
  {
    var ttl := if asked == 0 then cfg.defaultTTL else asked;
    var tx := AddGrant(Grant(r.openId, r.name, ip, FeishuCommand, w.now, w.now + ttl, None), cfg.maxActive);
    RecordStaysSound(w, tx);
    if Check(w.books, tx, w.now).None? {
      AfterAddStays(w.table, ip, ttl, Names.DisplayName(r.name, r.openId), w.now, luck.call, Effect(w.books, tx, w.now).managed);
    }
  }

  lemma RemoveStaysSound(w: World, r: Commands.Request, ip: string, luck: Commands.Luck)
    requires Sound(w)
    ensures Sound(Commands.Removing(w, r, ip, luck).0)
  {
    var tx := RevokeUser(r.openId, ip);
    RecordStaysSound(w, tx);
    var w1 := w.(books := Effect(w.books, tx, w.now));
    if g :| g in w.books.grants && Hits(g, r.openId, ip, w.now) {
      assert ip in ActiveIPs(w.books, w.now);
      RemovalStaysSound(w1, ip, luck.call);
    }
  }

  /** Neither frps call of a removal harms a managed address. */
  lemma RemovalStaysSound(w: World, ip: string, c: Call)
    requires Sound(w) && ip in w.books.managed
    ensures Sound(w.(table := AfterRemove(w.table, ip, c)))
    ensures forall ttl, operator :: Sound(w.(table := AfterAdd(w.table, ip, ttl, operator, w.now, c)))
  {
    forall ttl, operator
      ensures Sound(w.(table := AfterAdd(w.table, ip, ttl, operator, w.now, c)))
    {
      AfterAddStays(w.table, ip, ttl, operator, w.now, c, w.books.managed);
    }
  }

  lemma ClickStaysSound(w: World, max: int, ip: string, v4: Option<string>, hash: string, db: bool, calls: string -> Call)
    requires Sound(w)
    ensures Sound(Authorize.Posted(w, max, ip, v4, hash, db, calls).0)
  {
    var ips := Authorize.TargetsOf(ip, v4);
    var tx := Consume(hash, ips, max);
    RecordStaysSound(w, tx);
    if db && Check(w.books, tx, w.now).None? {
      var t := w.books.tokens[hash];
      var gs := LinkGrants(t, Distinct(ips), w.now);
      assert forall i :: 0 <= i < |gs| ==> gs[i].ip in Distinct(ips);
      AddEachStays(w.table, gs, Names.DisplayName(t.name, t.openId), w.now, calls, Effect(w.books, tx, w.now).managed);
    }
  }

  lemma GoalIsLive(gs: seq<Grant>, now: int)
    ensures Alive(Goal(gs, now), now)
    ensures forall ip <- Goal(gs, now) :: Goal(gs, now)[ip].writer.Gateway?
  {
    forall ip | ip in Goal(gs, now)
      ensures Goal(gs, now)[ip].expireAt > now && Goal(gs, now)[ip].writer.Gateway?
    {
      ExpiryOfActive(gs, ip, now);
      Duration.CutBounds(EffectiveExpiry(gs, ip, now).value - now);
    }
  }

  lemma PartlyStaysSound(w: World, w': World, goal: Table)
    requires Sound(w) && Partly(w, w', goal)
    requires goal.Keys == ActiveIPs(w.books, w.now) && Alive(goal, w.now)
    ensures Sound(w')
  {
    assert ActiveIPs(w'.books, w'.now) == goal.Keys;
    forall ip | ip in w'.table
      ensures w'.table[ip].expireAt > w'.now && (w'.table[ip].writer.Gateway? ==> ip in w'.books.managed)
    {
      assert ip in goal || SameAt(w.table, w'.table, ip);
    }
  }

  lemma StepStaysSound(cfg: Commands.Config, w: World, e: Event, w': World)
    requires Sound(w) && Next(cfg, w, e, w')
    ensures Sound(w')
  {
    match e
    case Tick => TickStaysSound(w);
    case Chat(r, luck) => ChatStaysSound(cfg, w, r, luck);
    case Click(ip, v4, hash, db, calls) => ClickStaysSound(w, cfg.maxActive, ip, v4, hash, db, calls);
    case Record(tx) => RecordStaysSound(w, tx);
    case Reconcile(ok) =>
      GoalIsLive(w.books.grants, w.now);
      PartlyStaysSound(w, w', Goal(w.books.grants, w.now));
    case _ =>
  }

  lemma {:induction false} SoundAt(cfg: Commands.Config, ws: seq<World>, es: seq<Event>, k: nat)
    requires IsRun(cfg, ws, es) && Sound(ws[0]) && k <= |es|
    ensures Sound(ws[k])
  {
    if k > 0 {
      SoundAt(cfg, ws, es, k - 1);
      StepStaysSound(cfg, ws[k - 1], es[k - 1], ws[k]);
    }
  }

  /** Over all serial runs every entry the gateway wrote stays managed until it is deleted or expires. */
  lemma SerialRunsStaySound(cfg: Commands.Config, ws: seq<World>, es: seq<Event>)
    requires IsRun(cfg, ws, es) && Sound(ws[0])
    ensures forall w <- ws :: Sound(w)
  {
    forall k: nat | k < |ws|
      ensures Sound(ws[k])
    {
      SoundAt(cfg, ws, es, k);
    }
  }

  // ---------- Recovery ----------

  /** What a pass that returns nil leaves, from any sound world. */
  ghost predicate Recovered(w: World, w': World) {
    RecoveredTo(w, w', Goal(w'.books.grants, w'.now))
  }

  ghost predicate RecoveredTo(w: World, w': World, goal: Table) {
    && w'.books.managed == goal.Keys
    && (forall ip :: ip in goal ==> SameAt(goal, w'.table, ip))
    && (forall ip :: ip in w.books.managed - goal.Keys ==> ip !in w'.table)
    && (forall ip :: ip !in w.books.managed ==> SameAt(w.table, w'.table, ip))
    && (forall ip :: ip in w'.table && w'.table[ip].writer.Gateway? <==> ip in goal)
  }

  lemma SyncRecovers(w: World, goal: Table)
    requires Sound(w) && goal.Keys == ActiveIPs(w.books, w.now)
    requires forall ip <- goal :: goal[ip].writer.Gateway?
    ensures RecoveredTo(w, Synced(w, goal), goal)
  {
  }

  /**
   From every world a serial run reaches, a pass that returns nil brings frps in step with
   the ledger, and passing again in the same second changes nothing.
   */
  lemma PassRecovers(cfg: Commands.Config, ws: seq<World>, es: seq<Event>, w': World, again: World)
    requires IsRun(cfg, ws, es) && Sound(ws[0])
    requires Pass(ws[|es|], w', true) && Pass(w', again, true)
    ensures Recovered(ws[|es|], w') && again == w'
  {
    SerialRunsStaySound(cfg, ws, es);
    var w := ws[|es|];
    var goal := Goal(w.books.grants, w.now);
    GoalIsLive(w.books.grants, w.now);
    SyncRecovers(w, goal);
    SyncTwice(w, goal);
  }

  lemma SyncTwice(w: World, goal: Table)
    ensures Synced(Synced(w, goal), goal) == Synced(w, goal)
  {
    var w' := Synced(w, goal);
    assert Synced(w', goal).table == w'.table;
  }
}
