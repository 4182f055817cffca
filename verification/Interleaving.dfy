/**
 A reconciliation pass split into its calls, with ledger transactions, clock ticks and
 any changes of frps in between. The pass and the writers of grants hold different locks,
 so every order of steps can happen.
 */
module Interleaving {
  import opened Options
  import opened Ledger
  import opened Frps
  import opened Projection
  import opened LedgerRuns
  import Coverage
  import Duration

  /** Where the pass is: the grants of its snapshot, and the addresses still to be handled. */
  datatype Phase =
    | Idle
    | Adding(snap: seq<Grant>, todo: set<string>)
    | Removing(snap: seq<Grant>, todo: set<string>)
    | Forgetting(snap: seq<Grant>, todo: set<string>, ip: string)

  /**
   `granted` is a history variable: the addresses that got a grant since the snapshot.
   `orphans` collects those of them that the pass forgot nevertheless, until managed again.
   */
  datatype Sys = Sys(w: World, phase: Phase, granted: set<string>, orphans: set<string>)

  datatype Event =
    | Tick
    | Commit(tx: Tx)
    | Edit(table: Table)
    | Snapshot
    | AddCall(ip: string, call: Call)
    | ListManaged
    | RemoveCall(ip: string, call: Call)
    | ForgetCall(db: bool)
    | Finish
    | Stop

  function SnapIPs(snap: seq<Grant>): set<string> {
    set g <- snap :: g.ip
  }

  /** One step; an event that cannot happen in the phase changes nothing. A call that fails ends the pass. */
  ghost function Do(s: Sys, e: Event): Sys {
    match e
    case Tick => s.(w := Ticked(s.w))
    case Commit(tx) => if tx.Forget? then s else Committed(s, tx)
    case Edit(table) => s.(w := s.w.(table := table))
    case Snapshot =>
      if !s.phase.Idle? then s
      else
        var snap := ActiveGrants(s.w.books.grants, s.w.now);
        s.(phase := Adding(snap, SnapIPs(snap)), granted := {})
    case AddCall(ip, c) => if s.phase.Adding? && ip in s.phase.todo then Added(s, ip, c) else s
    case ListManaged =>
      if s.phase.Adding? && s.phase.todo == {} then
        s.(phase := Removing(s.phase.snap, s.w.books.managed - SnapIPs(s.phase.snap)))
      else s
    case RemoveCall(ip, c) =>
      if s.phase.Removing? && ip in s.phase.todo then
        s.(w := s.w.(table := AfterRemove(s.w.table, ip, c)),
           phase := if c.Done? then Forgetting(s.phase.snap, s.phase.todo - {ip}, ip) else Idle)
      else s
    case ForgetCall(db) => if s.phase.Forgetting? then Forgotten(s, db) else s
    case Finish => if s.phase.Removing? && s.phase.todo == {} then s.(phase := Idle) else s
    case Stop => s.(phase := Idle)
  }

  function Committed(s: Sys, tx: Tx): Sys {
    var books := Apply(s.w.books, tx, s.w.now);
    Sys(s.w.(books := books), s.phase, s.granted + Inserted(s.w.books, tx, s.w.now), s.orphans - books.managed)
  }

  ghost function Added(s: Sys, ip: string, c: Call): Sys
    requires s.phase.Adding? && ip in s.phase.todo
  {
    var x := Latest(s.phase.snap, ip);
    if x.None? || x.value <= s.w.now || c.Refused? then s.(phase := Idle)
    else
      s.(w := s.w.(table := s.w.table[ip := EntryFor(s.phase.snap, ip, s.w.now)]),
         phase := if c.Done? then Adding(s.phase.snap, s.phase.todo - {ip}) else Idle)
  }

  function Forgotten(s: Sys, db: bool): Sys
    requires s.phase.Forgetting?
  {
    if !db then s.(phase := Idle)
    else
      s.(w := s.w.(books := Apply(s.w.books, Forget(s.phase.ip), s.w.now)),
         phase := Removing(s.phase.snap, s.phase.todo),
         orphans := if s.phase.ip in s.granted then s.orphans + {s.phase.ip} else s.orphans)
  }

  ghost function Run(s: Sys, es: seq<Event>): Sys {
    if es == [] then s else Do(Run(s, es[..|es| - 1]), es[|es| - 1])
  }

  // ---------- Active addresses stay managed ----------

  predicate IPsOutside(s: Sys) {
    match s.phase
    case Removing(snap, todo) => todo !! SnapIPs(snap)
    case Forgetting(snap, todo, ip) => todo !! SnapIPs(snap) && ip !in SnapIPs(snap)
    case _ => true
  }

  /** During a pass only a new grant can make an address active that the snapshot did not see. */
  predicate SeenOrGranted(s: Sys) {
    !s.phase.Idle? ==> ActiveIPs(s.w.books, s.w.now) <= SnapIPs(s.phase.snap) + s.granted
  }

  predicate ManagedOrOrphaned(s: Sys) {
    ActiveIPs(s.w.books, s.w.now) <= s.w.books.managed + s.orphans
  }

  predicate Kept(s: Sys) {
    IPsOutside(s) && SeenOrGranted(s) && ManagedOrOrphaned(s)
  }

  lemma TickKeeps(s: Sys)
    requires Kept(s)
    ensures Kept(s.(w := Ticked(s.w)))
  {
    assert ActiveIPs(s.w.books, s.w.now + 1) <= ActiveIPs(s.w.books, s.w.now);
  }

  lemma CommitKeeps(s: Sys, tx: Tx)
    requires Kept(s) && !tx.Forget?
    ensures Kept(Committed(s, tx))
  {
    OnlyInsertsActivate(s.w.books, tx, s.w.now);
    InsertsAreManaged(s.w.books, tx, s.w.now);
  }

  lemma SnapshotSees(b: Books, now: int)
    ensures SnapIPs(ActiveGrants(b.grants, now)) == ActiveIPs(b, now)
  {
  }

  lemma ForgetKeeps(s: Sys, db: bool)
    requires Kept(s) && s.phase.Forgetting?
    ensures Kept(Forgotten(s, db))
  {
  }

  lemma StepKeeps(s: Sys, e: Event)
    requires Kept(s)
    ensures Kept(Do(s, e))
  {
    match e
    case Tick => TickKeeps(s);
    case Commit(tx) => if !tx.Forget? { CommitKeeps(s, tx); }
    case Snapshot => SnapshotSees(s.w.books, s.w.now);
    case ForgetCall(db) => if s.phase.Forgetting? { ForgetKeeps(s, db); }
    case _ =>
  }

  /** In every interleaving an active address is managed, or was granted between the snapshot and the forgetting of it. */
  lemma {:induction false} ActiveIsManagedOrOrphaned(s: Sys, es: seq<Event>)
    requires Kept(s)
    ensures Kept(Run(s, es))
  {
    if es != [] {
      ActiveIsManagedOrOrphaned(s, es[..|es| - 1]);
      StepKeeps(Run(s, es[..|es| - 1]), es[|es| - 1]);
    }
  }

  /** The step that may break the rule: forgetting an address granted since the snapshot. */
  predicate ForgetsGranted(s: Sys, e: Event) {
    e.ForgetCall? && e.db && s.phase.Forgetting? && s.phase.ip in s.granted
  }

  ghost predicate Overlaps(s: Sys, es: seq<Event>) {
    exists k :: 0 <= k < |es| && ForgetsGranted(Run(s, es[..k]), es[k])
  }

  lemma {:induction false} NoOverlapNoOrphan(s: Sys, es: seq<Event>)
    requires s.orphans == {} && !Overlaps(s, es)
    ensures Run(s, es).orphans == {}
  {
    if es != [] {
      var last := |es| - 1;
      forall k | 0 <= k < last
        ensures !ForgetsGranted(Run(s, es[..last][..k]), es[..last][k])
      {
        assert es[..last][..k] == es[..k];
      }
      NoOverlapNoOrphan(s, es[..last]);
      assert !ForgetsGranted(Run(s, es[..last]), es[last]);
    }
  }

  /** Without such an overlap every active address is managed, in every interleaving. */
  lemma ActiveIsManaged(s: Sys, es: seq<Event>)
    requires s.phase.Idle? && s.orphans == {} && ActiveIPs(s.w.books, s.w.now) <= s.w.books.managed
    requires !Overlaps(s, es)
    ensures var t := Run(s, es).w; ActiveIPs(t.books, t.now) <= t.books.managed
  {
    ActiveIsManagedOrOrphaned(s, es);
    NoOverlapNoOrphan(s, es);
  }

  /** Forgetting breaks the rule exactly when the address has a live grant at that moment, which is then a new one. */
  lemma ForgettingBreaksExactlyOnLive(s: Sys)
    requires Kept(s) && s.phase.Forgetting?
    requires ActiveIPs(s.w.books, s.w.now) <= s.w.books.managed
    ensures var t := Forgotten(s, true).w;
            ActiveIPs(t.books, t.now) <= t.books.managed <==> s.phase.ip !in ActiveIPs(s.w.books, s.w.now)
    ensures s.phase.ip in ActiveIPs(s.w.books, s.w.now) ==> s.phase.ip in s.granted
  {
    ActiveStaysManaged(s.w.books, Forget(s.phase.ip), s.w.now);
  }

  predicate AllManaged(w: World) { ActiveIPs(w.books, w.now) <= w.books.managed }

  /** A successful ForgetCall for an address that is live at that moment. */
  predicate ForgetsLive(s: Sys, e: Event) {
    e.ForgetCall? && e.db && s.phase.Forgetting? && s.phase.ip in ActiveIPs(s.w.books, s.w.now)
  }

  lemma StepBreaksExactly(s: Sys, e: Event)
    requires AllManaged(s.w)
    ensures AllManaged(Do(s, e).w) <==> !ForgetsLive(s, e)
  {
    match e
    case Tick => assert ActiveIPs(s.w.books, s.w.now + 1) <= ActiveIPs(s.w.books, s.w.now);
    case Commit(tx) => ActiveStaysManaged(s.w.books, tx, s.w.now);
    case ForgetCall(db) => if s.phase.Forgetting? { ActiveStaysManaged(s.w.books, Forget(s.phase.ip), s.w.now); }
    case _ => OtherStepKeepsBooks(s, e);
  }

  lemma OtherStepKeepsBooks(s: Sys, e: Event)
    requires !e.Tick? && !e.Commit? && !e.ForgetCall?
    ensures Do(s, e).w.books == s.w.books && Do(s, e).w.now == s.w.now
  {
  }

  ghost predicate ManagedAllAlong(s: Sys, es: seq<Event>) {
    forall k: nat :: k <= |es| ==> AllManaged(Run(s, es[..k]).w)
  }

  ghost predicate NeverForgetsLive(s: Sys, es: seq<Event>) {
    forall k: nat :: k < |es| ==> !ForgetsLive(Run(s, es[..k]), es[k])
  }

  lemma ManagedSnoc(s: Sys, es: seq<Event>, e: Event)
    ensures ManagedAllAlong(s, es + [e]) <==> ManagedAllAlong(s, es) && AllManaged(Run(s, es + [e]).w)
  {
    var more := es + [e];
    assert more[..|more|] == more;
    forall k: nat | k <= |es|
      ensures more[..k] == es[..k]
    {
    }
  }

  lemma ForgetsSnoc(s: Sys, es: seq<Event>, e: Event)
    ensures NeverForgetsLive(s, es + [e]) <==> NeverForgetsLive(s, es) && !ForgetsLive(Run(s, es), e)
  {
    var more := es + [e];
    assert more[..|es|] == es && more[|es|] == e;
    forall k: nat | k < |es|
      ensures more[..k] == es[..k] && more[k] == es[k]
    {
    }
  }

  lemma RunSnoc(s: Sys, es: seq<Event>, e: Event)
    ensures Run(s, es + [e]) == Do(Run(s, es), e)
  {
    assert (es + [e])[..|es|] == es;
  }

  /**
   In an interleaving active addresses are managed all along exactly when no successful
   ForgetCall meets an address that is live at that moment.
   */
  lemma {:induction false} ManagedAllAlongExactly(s: Sys, es: seq<Event>)
    requires AllManaged(s.w)
    ensures ManagedAllAlong(s, es) <==> NeverForgetsLive(s, es)
  {
    if es == [] {
      assert es[..0] == [];
    } else {
      var front, e := es[..|es| - 1], es[|es| - 1];
      assert es == front + [e];
      ManagedAllAlongExactly(s, front);
      ManagedSnoc(s, front, e);
      ForgetsSnoc(s, front, e);
      RunSnoc(s, front, e);
      if ManagedAllAlong(s, front) {
        LastIsManaged(s, front);
        StepBreaksExactly(Run(s, front), e);
      }
    }
  }

  lemma LastIsManaged(s: Sys, es: seq<Event>)
    requires ManagedAllAlong(s, es)
    ensures AllManaged(Run(s, es).w)
  {
    assert es[..|es|] == es;
  }

  /** A pass up to the removal of a stale address, from a world that manages only it. */
  lemma PassUpToRemoval(ip: string)
    ensures var s := Sys(World(0, Books([], {ip}, map[], []), map[]), Idle, {}, {});
            Run(s, [Snapshot, ListManaged, RemoveCall(ip, Done)]) == s.(phase := Forgetting([], {}, ip))
  {
    var s := Sys(World(0, Books([], {ip}, map[], []), map[]), Idle, {}, {});
    var es := [Snapshot, ListManaged, RemoveCall(ip, Done)];
    assert SnapIPs([]) == {} && {ip} - SnapIPs([]) == {ip} && {ip} - {ip} == {};
    assert s.w.table - {ip} == s.w.table;
    RunStep(s, es, 0, s.(phase := Adding([], {})));
    RunStep(s, es, 1, s.(phase := Removing([], {ip})));
    RunStep(s, es, 2, s.(phase := Forgetting([], {}, ip)));
    assert es[..3] == es;
  }

  /** The exception is real: a grant recorded between the removal and the forgetting is left unmanaged. */
  lemma OverlapOrphans(ip: string, g: Grant)
    requires g.ip == ip && g.expireAt > 0
    ensures var s := Sys(World(0, Books([], {ip}, map[], []), map[]), Idle, {}, {});
            var removed := Run(s, [Snapshot, ListManaged, RemoveCall(ip, Done)]);
            var t := Run(removed, [Commit(AddGrant(g, 0)), ForgetCall(true), Finish]);
            t.phase.Idle? && ip in ActiveIPs(t.w.books, t.w.now) && ip !in t.w.books.managed
  {
    PassUpToRemoval(ip);
    var s := Sys(World(0, Books([], {ip}, map[], []), map[]), Forgetting([], {}, ip), {}, {});
    var es := [Commit(AddGrant(g, 0)), ForgetCall(true), Finish];
    var books := Books([g.(revokedAt := None)], {ip}, map[], []);
    assert books == Apply(s.w.books, AddGrant(g, 0), 0);
    RunStep(s, es, 0, s.(w := s.w.(books := books), granted := {ip}));
    var t := Sys(s.w.(books := books.(managed := {})), Removing([], {}), {ip}, {ip});
    RunStep(s, es, 1, t);
    RunStep(s, es, 2, t.(phase := Idle));
    assert es[..3] == es;
    assert books.grants[0] in books.grants;
  }

  lemma RunStep(s: Sys, es: seq<Event>, k: nat, t: Sys)
    requires k < |es| && Do(Run(s, es[..k]), es[k]) == t
    ensures Run(s, es[..k + 1]) == t
  {
    assert es[..k + 1][..k] == es[..k];
  }

  // ---------- An undisturbed pass ----------

  /** A pass and clock ticks, nothing else. */
  predicate Undisturbed(es: seq<Event>) {
    && |es| >= 2 && es[0] == Snapshot && es[|es| - 1] == Finish
    && forall k :: 0 < k < |es| - 1 ==> PassStep(es[k])
  }

  predicate PassStep(e: Event) {
    e.Tick? || e.AddCall? || e.ListManaged? || e.RemoveCall? || e.ForgetCall?
  }

  /** The pass got through to its end. */
  ghost predicate Completes(s: Sys, es: seq<Event>) {
    Undisturbed(es) && var t := Run(s, es[..|es| - 1]); t.phase.Removing? && t.phase.todo == {}
  }

  /** The address has been written by this pass, and its entry lasts. */
  predicate Written(w: World, snap: seq<Grant>, ip: string, start: int) {
    var x := Latest(snap, ip);
    x.Some? && w.now < x.value ==> ip in w.table && Coverage.Lasting(w.table[ip], x.value, start)
  }

  /** Progress of a pass whose snapshot was taken at `start`. */
  predicate Progress(s: Sys, snap: seq<Grant>, start: int) {
    s.phase.Idle? ||
    (&& s.phase.snap == snap && IPsOutside(s) && start <= s.w.now
     && forall ip :: ip in SnapIPs(snap) && !(s.phase.Adding? && ip in s.phase.todo) ==> Written(s.w, snap, ip, start))
  }

  lemma AddWrites(s: Sys, ip: string, c: Call, snap: seq<Grant>, start: int)
    requires s.phase.Adding? && ip in s.phase.todo && Progress(s, snap, start)
    ensures Progress(Added(s, ip, c), snap, start)
  {
    var x := Latest(snap, ip);
    if x.Some? && x.value > s.w.now {
      Duration.CutBounds(x.value - s.w.now);
    }
  }

  lemma TickProgress(s: Sys, snap: seq<Grant>, start: int)
    requires Progress(s, snap, start) && s.w.now + 1 <= start + Coverage.PERIOD
    ensures Progress(Do(s, Event.Tick), snap, start)
  {
    if !s.phase.Idle? {
      forall ip | ip in SnapIPs(snap) && !(s.phase.Adding? && ip in s.phase.todo)
        ensures Written(Ticked(s.w), snap, ip, start)
      {
        assert Written(s.w, snap, ip, start);
      }
    }
  }

  lemma StepProgress(s: Sys, e: Event, snap: seq<Grant>, start: int)
    requires Progress(s, snap, start) && PassStep(e)
    requires e.Tick? ==> s.w.now + 1 <= start + Coverage.PERIOD
    ensures Progress(Do(s, e), snap, start)
  {
    match e
    case Tick => TickProgress(s, snap, start);
    case AddCall(ip, c) => if s.phase.Adding? && ip in s.phase.todo { AddWrites(s, ip, c, snap, start); }
    case _ => OtherProgress(s, e, snap, start);
  }

  lemma OtherProgress(s: Sys, e: Event, snap: seq<Grant>, start: int)
    requires Progress(s, snap, start) && (e.ListManaged? || e.RemoveCall? || e.ForgetCall?)
    ensures Progress(Do(s, e), snap, start)
  {
    var t := Do(s, e);
    if !t.phase.Idle? {
      forall ip | ip in SnapIPs(snap) && !(t.phase.Adding? && ip in t.phase.todo)
        ensures Written(t.w, snap, ip, start)
      {
        assert Written(s.w, snap, ip, start);
      }
    }
  }

  lemma {:induction false} PassProgress(s: Sys, es: seq<Event>, k: nat)
    requires s.phase.Idle? && Undisturbed(es) && 0 < k < |es|
    requires Run(s, es[..k]).w.now <= s.w.now + Coverage.PERIOD
    ensures Progress(Run(s, es[..k]), ActiveGrants(s.w.books.grants, s.w.now), s.w.now)
    ensures Run(s, es[..k]).w.books.grants == s.w.books.grants && s.w.now <= Run(s, es[..k]).w.now
  {
    assert es[..k][..k - 1] == es[..k - 1];
    var t := Run(s, es[..k - 1]);
    if k > 1 {
      assert PassStep(es[k - 1]);
      StepKeepsGrants(t, es[k - 1]);
      PassProgress(s, es, k - 1);
      StepProgress(t, es[k - 1], ActiveGrants(s.w.books.grants, s.w.now), s.w.now);
    }
  }

  lemma StepKeepsGrants(s: Sys, e: Event)
    requires PassStep(e)
    ensures Do(s, e).w.books.grants == s.w.books.grants
    ensures Do(s, e).w.now == if e.Tick? then s.w.now + 1 else s.w.now
  {
  }

  /**
   From any world at all, after any interleaving, the next undisturbed pass that gets through
   within the coverage period puts every active address on frps, live and until no later than
   its effective expiry.
   */
  lemma UndisturbedPassCovers(s: Sys, es: seq<Event>, ip: string)
    requires s.phase.Idle? && Completes(s, es)
    requires Run(s, es).w.now <= s.w.now + Coverage.PERIOD
    requires var t := Run(s, es).w; ip in ActiveIPs(t.books, t.now)
    ensures var t := Run(s, es).w;
            var x := EffectiveExpiry(t.books.grants, ip, t.now);
            x.Some? && ip in t.table && t.now < t.table[ip].expireAt <= x.value
  {
    var last := |es| - 1;
    var u, t := Run(s, es[..last]), Run(s, es);
    assert t == u.(phase := Idle);
    PassProgress(s, es, last);
    var gs := s.w.books.grants;
    Coverage.ExpiryPersists(gs, ip, s.w.now, t.w.now);
    ExpiryOfActive(gs, ip, t.w.now);
    ExpiryOfActive(gs, ip, s.w.now);
    SnapshotSees(s.w.books, s.w.now);
    assert Written(u.w, ActiveGrants(gs, s.w.now), ip, s.w.now);
  }

  // ---------- What an undisturbed pass clears ----------

  /** The address has an entry that frps still honours. */
  predicate OnFrps(w: World, ip: string) { ip in w.table && w.table[ip].expireAt > w.now }

  /** The entry of the address is the one of the table t, as long as it lasts. */
  predicate LeftAlone(t: Table, w: World, ip: string) {
    (OnFrps(w, ip) <==> ip in t && t[ip].expireAt > w.now) && (OnFrps(w, ip) ==> w.table[ip] == t[ip])
  }

  predicate EndsBy(w: World, ip: string, m: int) { ip in w.table ==> w.table[ip].expireAt <= m }

  /** Where a pass that started in w0 leaves one address: written ones end with their grants, stale ones go, others are left alone. */
  predicate Tidies(s: Sys, w0: World, snap: seq<Grant>, ip: string) {
    if ip in SnapIPs(snap) then
      (s.phase.Adding? && ip in s.phase.todo) || (Latest(snap, ip).Some? && EndsBy(s.w, ip, Latest(snap, ip).value))
    else if ip in w0.books.managed && Passed(s.phase, ip) then ip !in s.w.table
    else LeftAlone(w0.table, s.w, ip)
  }

  /** The removing half has dealt with the address. */
  predicate Passed(p: Phase, ip: string) { (p.Removing? || p.Forgetting?) && ip !in p.todo }

  /** The phase is that of a pass with this snapshot, over the addresses managed at its start. */
  predicate OfPass(s: Sys, w0: World, snap: seq<Grant>) {
    match s.phase
    case Idle => true
    case Adding(sn, todo) => sn == snap && todo <= SnapIPs(snap) && s.w.books.managed == w0.books.managed
    case Removing(sn, todo) => sn == snap && todo <= w0.books.managed - SnapIPs(snap)
    case Forgetting(sn, todo, ip) => sn == snap && todo <= w0.books.managed - SnapIPs(snap) && ip in w0.books.managed - SnapIPs(snap)
  }

  predicate TidiesIfRunning(s: Sys, w0: World, snap: seq<Grant>, ip: string) {
    OfPass(s, w0, snap) && (s.phase.Idle? || Tidies(s, w0, snap, ip))
  }

  lemma TickTidies(s: Sys, w0: World, snap: seq<Grant>, ip: string)
    requires TidiesIfRunning(s, w0, snap, ip)
    ensures TidiesIfRunning(Do(s, Event.Tick), w0, snap, ip)
  {
  }

  lemma AddTidies(s: Sys, added: string, c: Call, w0: World, snap: seq<Grant>, ip: string)
    requires TidiesIfRunning(s, w0, snap, ip) && s.phase.Adding? && added in s.phase.todo
    ensures TidiesIfRunning(Added(s, added, c), w0, snap, ip)
  {
    var x := Latest(snap, added);
    if x.Some? && x.value > s.w.now {
      Duration.CutBounds(x.value - s.w.now);
    }
  }

  lemma ListTidies(s: Sys, w0: World, snap: seq<Grant>, ip: string)
    requires TidiesIfRunning(s, w0, snap, ip)
    ensures TidiesIfRunning(Do(s, ListManaged), w0, snap, ip)
  {
  }

  lemma RemoveTidies(s: Sys, removed: string, c: Call, w0: World, snap: seq<Grant>, ip: string)
    requires TidiesIfRunning(s, w0, snap, ip)
    ensures TidiesIfRunning(Do(s, RemoveCall(removed, c)), w0, snap, ip)
  {
  }

  lemma ForgetTidies(s: Sys, db: bool, w0: World, snap: seq<Grant>, ip: string)
    requires TidiesIfRunning(s, w0, snap, ip)
    ensures TidiesIfRunning(Do(s, ForgetCall(db)), w0, snap, ip)
  {
  }

  lemma StepTidies(s: Sys, e: Event, w0: World, snap: seq<Grant>, ip: string)
    requires TidiesIfRunning(s, w0, snap, ip) && PassStep(e)
    ensures TidiesIfRunning(Do(s, e), w0, snap, ip)
  {
    match e
    case Tick => TickTidies(s, w0, snap, ip);
    case AddCall(added, c) => if s.phase.Adding? && added in s.phase.todo { AddTidies(s, added, c, w0, snap, ip); }
    case ListManaged => ListTidies(s, w0, snap, ip);
    case RemoveCall(removed, c) => RemoveTidies(s, removed, c, w0, snap, ip);
    case ForgetCall(db) => ForgetTidies(s, db, w0, snap, ip);
  }

  lemma {:induction false} PassTidies(s: Sys, es: seq<Event>, ip: string, k: nat)
    requires s.phase.Idle? && Undisturbed(es) && 0 < k < |es|
    ensures TidiesIfRunning(Run(s, es[..k]), s.w, ActiveGrants(s.w.books.grants, s.w.now), ip)
    ensures Run(s, es[..k]).w.books.grants == s.w.books.grants && s.w.now <= Run(s, es[..k]).w.now
  {
    assert es[..k][..k - 1] == es[..k - 1];
    if k > 1 {
      assert PassStep(es[k - 1]);
      StepKeepsGrants(Run(s, es[..k - 1]), es[k - 1]);
      PassTidies(s, es, ip, k - 1);
      StepTidies(Run(s, es[..k - 1]), es[k - 1], s.w, ActiveGrants(s.w.books.grants, s.w.now), ip);
    }
  }

  /**
   After an undisturbed pass that gets through, however long it takes, an address without a live
   grant is off frps exactly when it was active at the start of the pass, or managed then, or has
   no entry from before that still lasts.
   */
  lemma UndisturbedPassClearsExactly(s: Sys, es: seq<Event>, ip: string)
    requires s.phase.Idle? && Completes(s, es)
    requires var t := Run(s, es).w; ip !in ActiveIPs(t.books, t.now)
    ensures var t := Run(s, es).w;
            !OnFrps(t, ip) <==>
            || ip in ActiveIPs(s.w.books, s.w.now) || ip in s.w.books.managed
            || ip !in s.w.table || s.w.table[ip].expireAt <= t.now
  {
    var last := |es| - 1;
    var gs := s.w.books.grants;
    var u, t := Run(s, es[..last]), Run(s, es);
    assert t == u.(phase := Idle);
    PassTidies(s, es, ip, last);
    SnapshotSees(s.w.books, s.w.now);
    Coverage.ExpiryPersists(gs, ip, s.w.now, t.w.now);
    ExpiryOfActive(gs, ip, s.w.now);
    ExpiryOfActive(gs, ip, t.w.now);
  }

  /** So an active address that the gateway does not manage stays on frps after its grant is revoked, whatever passes follow at once. */
  lemma RevokedOrphanStays(s: Sys, actor: string, id: nat, ip: string, es: seq<Event>)
    requires s.phase.Idle? && ip !in s.w.books.managed
    requires var revoked := Do(s, Commit(RevokeAdmin(actor, id)));
             ip !in ActiveIPs(revoked.w.books, revoked.w.now) && Completes(revoked, es)
             && ip in s.w.table && s.w.table[ip].expireAt > Run(revoked, es).w.now
    ensures OnFrps(Run(Do(s, Commit(RevokeAdmin(actor, id))), es).w, ip)
  {
    var revoked := Do(s, Commit(RevokeAdmin(actor, id)));
    PassTidies(revoked, es, ip, |es| - 1);
    ActiveShrinks(revoked.w.books, ip, revoked.w.now, Run(revoked, es).w.now);
    UndisturbedPassClearsExactly(revoked, es, ip);
  }

  lemma ActiveShrinks(b: Books, ip: string, now: int, later: int)
    requires now <= later && ip !in ActiveIPs(b, now)
    ensures ip !in LiveIPs(b.grants, later)
  {
  }

  // ---------- The calls of a pass refine the pass in one step ----------

  function Gone(w: World, goal: Table, removed: set<string>, forgotten: set<string>): World {
    w.(books := w.books.(managed := w.books.managed - forgotten), table := (w.table + goal) - removed)
  }

  /** Where a pass that started in w stands after calls that all succeeded, within one second. */
  ghost predicate OnTrack(s: Sys, w: World, goal: Table, snap: seq<Grant>) {
    var stale := w.books.managed - goal.Keys;
    match s.phase
    case Idle => true
    case Adding(sn, todo) =>
      sn == snap && todo <= goal.Keys && s.w == w.(table := w.table + Only(goal, goal.Keys - todo))
    case Removing(sn, todo) =>
      sn == snap && todo <= stale && s.w == Gone(w, goal, stale - todo, stale - todo)
    case Forgetting(sn, todo, ip) =>
      sn == snap && todo <= stale && ip in stale && ip !in todo
      && s.w == Gone(w, goal, stale - todo, stale - todo - {ip})
  }

  lemma SnapEntryIsGoal(gs: seq<Grant>, ip: string, now: int)
    requires ip in Goal(gs, now)
    ensures var snap := ActiveGrants(gs, now);
            Latest(snap, ip).Some? && Latest(snap, ip).value > now && EntryFor(snap, ip, now) == Goal(gs, now)[ip]
  {
    ExpiryOfActive(gs, ip, now);
  }

  lemma AddOnTrack(s: Sys, ip: string, c: Call, w: World)
    requires s.phase.Adding? && ip in s.phase.todo
    requires OnTrack(s, w, Goal(w.books.grants, w.now), ActiveGrants(w.books.grants, w.now))
    ensures OnTrack(Added(s, ip, c), w, Goal(w.books.grants, w.now), ActiveGrants(w.books.grants, w.now))
  {
    var goal := Goal(w.books.grants, w.now);
    SnapEntryIsGoal(w.books.grants, ip, w.now);
    OnlyGrows(w.table, goal, goal.Keys - s.phase.todo, ip);
    assert goal.Keys - (s.phase.todo - {ip}) == goal.Keys - s.phase.todo + {ip};
  }

  lemma ListOnTrack(s: Sys, w: World, goal: Table, snap: seq<Grant>)
    requires s.phase.Adding? && s.phase.todo == {} && OnTrack(s, w, goal, snap) && SnapIPs(snap) == goal.Keys
    ensures OnTrack(Do(s, ListManaged), w, goal, snap)
  {
    var stale := w.books.managed - goal.Keys;
    assert Only(goal, goal.Keys - {}) == goal;
    assert (w.table + goal) - (stale - stale) == w.table + goal;
    assert w.books.managed - (stale - stale) == w.books.managed;
  }

  lemma RemoveOnTrack(s: Sys, ip: string, c: Call, w: World, goal: Table, snap: seq<Grant>)
    requires s.phase.Removing? && ip in s.phase.todo && OnTrack(s, w, goal, snap)
    ensures OnTrack(Do(s, RemoveCall(ip, c)), w, goal, snap)
  {
    var stale, todo := w.books.managed - goal.Keys, s.phase.todo;
    assert ((w.table + goal) - (stale - todo)) - {ip} == (w.table + goal) - (stale - (todo - {ip}));
    assert stale - (todo - {ip}) - {ip} == stale - todo;
  }

  lemma ForgetOnTrack(s: Sys, db: bool, w: World, goal: Table, snap: seq<Grant>)
    requires s.phase.Forgetting? && OnTrack(s, w, goal, snap)
    ensures OnTrack(Forgotten(s, db), w, goal, snap)
  {
    var stale, todo, ip := w.books.managed - goal.Keys, s.phase.todo, s.phase.ip;
    assert (w.books.managed - (stale - todo - {ip})) - {ip} == w.books.managed - (stale - todo);
  }

  lemma StepOnTrack(s: Sys, e: Event, w: World)
    requires PassStep(e) && !e.Tick?
    requires OnTrack(s, w, Goal(w.books.grants, w.now), ActiveGrants(w.books.grants, w.now))
    ensures OnTrack(Do(s, e), w, Goal(w.books.grants, w.now), ActiveGrants(w.books.grants, w.now))
  {
    var goal, snap := Goal(w.books.grants, w.now), ActiveGrants(w.books.grants, w.now);
    SnapshotSees(w.books, w.now);
    match e
    case AddCall(ip, c) => if s.phase.Adding? && ip in s.phase.todo { AddOnTrack(s, ip, c, w); }
    case ListManaged => if s.phase.Adding? && s.phase.todo == {} { ListOnTrack(s, w, goal, snap); }
    case RemoveCall(ip, c) => if s.phase.Removing? && ip in s.phase.todo { RemoveOnTrack(s, ip, c, w, goal, snap); }
    case ForgetCall(db) => if s.phase.Forgetting? { ForgetOnTrack(s, db, w, goal, snap); }
  }

  lemma {:induction false} PassOnTrack(s: Sys, es: seq<Event>, k: nat)
    requires s.phase.Idle? && Undisturbed(es) && 0 < k < |es| && forall e <- es :: !e.Tick?
    ensures OnTrack(Run(s, es[..k]), s.w, Goal(s.w.books.grants, s.w.now), ActiveGrants(s.w.books.grants, s.w.now))
  {
    assert es[..k][..k - 1] == es[..k - 1];
    if k == 1 {
      StartOnTrack(s);
      assert Run(s, es[..1]) == Do(s, Snapshot);
    } else {
      assert PassStep(es[k - 1]) && es[k - 1] in es;
      PassOnTrack(s, es, k - 1);
      StepOnTrack(Run(s, es[..k - 1]), es[k - 1], s.w);
    }
  }

  lemma StartOnTrack(s: Sys)
    requires s.phase.Idle?
    ensures OnTrack(Do(s, Snapshot), s.w, Goal(s.w.books.grants, s.w.now), ActiveGrants(s.w.books.grants, s.w.now))
  {
    var goal := Goal(s.w.books.grants, s.w.now);
    SnapshotSees(s.w.books, s.w.now);
    assert s.w.table + Only(goal, goal.Keys - goal.Keys) == s.w.table;
  }

  lemma GoneIsSynced(w: World, goal: Table)
    ensures var stale := w.books.managed - goal.Keys;
            Gone(w, goal, stale - {}, stale - {}) == Synced(w, goal)
  {
    var stale := w.books.managed - goal.Keys;
    assert (w.table + goal) - (stale - {}) == (w.table - stale) + goal;
    assert w.books.managed - (stale - {}) == w.books.managed * goal.Keys;
  }

  /** Calls that come in any order, undisturbed and within one second, add up to the pass taken as one step. */
  lemma CallsRefinePass(s: Sys, es: seq<Event>)
    requires s.phase.Idle? && Completes(s, es) && forall e <- es :: !e.Tick?
    ensures Run(s, es).w == Synced(s.w, Goal(s.w.books.grants, s.w.now))
  {
    PassOnTrack(s, es, |es| - 1);
    GoneIsSynced(s.w, Goal(s.w.books.grants, s.w.now));
  }
}
