/**
 The remote calls of chat and link changes, which follow their transaction without a lock: a
 pass may come in between, or even between the transaction and a call that is slow to arrive.
 The state of `Interleaving` is extended by the addresses whose calls are still to be made.
 */
module LateCalls {
  import opened Options
  import opened Ledger
  import opened Frps
  import opened Projection
  import I = Interleaving
  import Authorize
  import Commands
  import Duration
  import LedgerRuns
  import Names
  import SerialRuns

  datatype Late = Late(sys: I.Sys, pending: multiset<string>)

  /** A step of the pass, the ledger, the clock or of people at frps; or a call for a pending address. */
  datatype Event =
    | Base(e: I.Event)
    | Add(ip: string, ttl: int, operator: string, c: Call)
    | Remove(ip: string, c: Call)

  /** The addresses an accepted chat or link transaction makes a call for. */
  function CallsFor(b: Books, tx: Tx, now: int): seq<string> {
    if Check(b, tx, now).Some? then []
    else match tx
      case AddGrant(g, _) => [g.ip]
      case Consume(_, ips, _) => Distinct(ips)
      case RevokeUser(user, ip) => if exists g <- b.grants :: Hits(g, user, ip, now) then [ip] else []
      case _ => []
  }

  function NewCalls(w: World, e: I.Event): multiset<string> {
    if e.Commit? then multiset(CallsFor(w.books, e.tx, w.now)) else multiset{}
  }

  /** People do not write entries of the gateway. */
  predicate ByHand(t: Table, t': Table) {
    forall ip <- t' :: t'[ip].writer.Gateway? ==> ip in t && t[ip] == t'[ip]
  }

  function WithTable(s: I.Sys, t: Table): I.Sys { s.(w := s.w.(table := t)) }

  ghost function Step(s: Late, e: Event): Late {
    match e
    case Base(b) =>
      if b.Edit? && !ByHand(s.sys.w.table, b.table) then s
      else Late(I.Do(s.sys, b), s.pending + NewCalls(s.sys.w, b))
    case Add(ip, ttl, operator, c) =>
      if ip !in s.pending then s
      else Late(WithTable(s.sys, AfterAdd(s.sys.w.table, ip, ttl, operator, s.sys.w.now, c)), s.pending - multiset{ip})
    case Remove(ip, c) =>
      if ip !in s.pending then s
      else Late(WithTable(s.sys, AfterRemove(s.sys.w.table, ip, c)), s.pending - multiset{ip})
  }

  ghost function Run(s: Late, es: seq<Event>): Late {
    if es == [] then s else Step(Run(s, es[..|es| - 1]), es[|es| - 1])
  }

  lemma RunOne(s: Late, e: Event)
    ensures Run(s, [e]) == Step(s, e)
  {
    assert [e][..0] == [];
  }

  lemma RunSnoc(s: Late, es: seq<Event>, e: Event)
    ensures Run(s, es + [e]) == Step(Run(s, es), e)
  {
    assert (es + [e])[..|es|] == es;
  }

  // ---------- Entries of the gateway that nobody manages ----------

  predicate OwnManaged(w: World) { SerialRuns.OwnEntriesManaged(w.table, w.books.managed) }

  /** A call writes an address that is not managed when it arrives. */
  predicate WritesUnmanaged(s: Late, e: Event) {
    match e
    case Add(ip, ttl, _, c) => ip in s.pending && ttl > 0 && !c.Refused? && ip !in s.sys.w.books.managed
    case Base(AddCall(ip, c)) =>
      && s.sys.phase.Adding? && ip in s.sys.phase.todo && !c.Refused? && ip !in s.sys.w.books.managed
      && Latest(s.sys.phase.snap, ip).Some? && Latest(s.sys.phase.snap, ip).value > s.sys.w.now
    case _ => false
  }

  /** The pass forgets an address that got an entry again after its removal. */
  predicate ForgetsEntry(s: Late, e: Event) {
    && e.Base? && e.e.ForgetCall? && e.e.db && s.sys.phase.Forgetting?
    && s.sys.phase.ip in s.sys.w.table && s.sys.w.table[s.sys.phase.ip].writer.Gateway?
  }

  lemma CommitKeepsOwn(s: I.Sys, tx: Tx)
    requires OwnManaged(s.w) && !tx.Forget?
    ensures OwnManaged(I.Committed(s, tx).w)
  {
    LedgerRuns.InsertsAreManaged(s.w.books, tx, s.w.now);
  }

  lemma AddCallKeepsOwnExactly(s: Late, ip: string, c: Call)
    requires OwnManaged(s.sys.w) && s.sys.phase.Adding? && ip in s.sys.phase.todo
    ensures OwnManaged(I.Added(s.sys, ip, c).w) <==> !WritesUnmanaged(s, Base(I.AddCall(ip, c)))
  {
    var x := Latest(s.sys.phase.snap, ip);
    if x.Some? && x.value > s.sys.w.now && !c.Refused? {
      assert ip in I.Added(s.sys, ip, c).w.table;
    }
  }

  lemma ForgetKeepsOwnExactly(s: Late, db: bool)
    requires OwnManaged(s.sys.w) && s.sys.phase.Forgetting?
    ensures OwnManaged(I.Forgotten(s.sys, db).w) <==> !ForgetsEntry(s, Base(I.ForgetCall(db)))
  {
  }

  lemma BaseStepExactly(s: Late, e: I.Event)
    requires OwnManaged(s.sys.w)
    ensures OwnManaged(Step(s, Base(e)).sys.w) <==> !WritesUnmanaged(s, Base(e)) && !ForgetsEntry(s, Base(e))
  {
    match e
    case Commit(tx) => if !tx.Forget? { CommitKeepsOwn(s.sys, tx); }
    case AddCall(ip, c) => if s.sys.phase.Adding? && ip in s.sys.phase.todo { AddCallKeepsOwnExactly(s, ip, c); }
    case ForgetCall(db) => if s.sys.phase.Forgetting? { ForgetKeepsOwnExactly(s, db); }
    case _ =>
  }

  lemma CallStepExactly(s: Late, ip: string, ttl: int, operator: string, c: Call)
    requires OwnManaged(s.sys.w)
    ensures OwnManaged(Step(s, Add(ip, ttl, operator, c)).sys.w) <==> !WritesUnmanaged(s, Add(ip, ttl, operator, c))
  {
    if ip in s.pending && ttl > 0 && !c.Refused? {
      assert ip in Step(s, Add(ip, ttl, operator, c)).sys.w.table;
    }
  }

  lemma StepExactly(s: Late, e: Event)
    requires OwnManaged(s.sys.w)
    ensures OwnManaged(Step(s, e).sys.w) <==> !WritesUnmanaged(s, e) && !ForgetsEntry(s, e)
  {
    match e
    case Base(b) => BaseStepExactly(s, b);
    case Add(ip, ttl, operator, c) => CallStepExactly(s, ip, ttl, operator, c);
    case Remove(ip, c) =>
  }

  ghost predicate OwnAllAlong(s: Late, es: seq<Event>) {
    forall k: nat :: k <= |es| ==> OwnManaged(Run(s, es[..k]).sys.w)
  }

  ghost predicate NeverStrays(s: Late, es: seq<Event>) {
    forall k: nat :: k < |es| ==> !WritesUnmanaged(Run(s, es[..k]), es[k]) && !ForgetsEntry(Run(s, es[..k]), es[k])
  }

  lemma OwnSnoc(s: Late, es: seq<Event>, e: Event)
    ensures OwnAllAlong(s, es + [e]) <==> OwnAllAlong(s, es) && OwnManaged(Run(s, es + [e]).sys.w)
  {
    var more := es + [e];
    assert more[..|more|] == more;
    forall k: nat | k <= |es|
      ensures more[..k] == es[..k]
    {
    }
  }

  lemma LastIsOwn(s: Late, es: seq<Event>)
    requires OwnAllAlong(s, es)
    ensures OwnManaged(Run(s, es).sys.w)
  {
    assert es[..|es|] == es;
  }

  lemma StraysSnoc(s: Late, es: seq<Event>, e: Event)
    ensures NeverStrays(s, es + [e]) <==>
            NeverStrays(s, es) && !WritesUnmanaged(Run(s, es), e) && !ForgetsEntry(Run(s, es), e)
  {
    var more := es + [e];
    assert more[..|es|] == es && more[|es|] == e;
    forall k: nat | k < |es|
      ensures more[..k] == es[..k] && more[k] == es[k]
    {
    }
  }

  /**
   In every interleaving the entries of the gateway are managed all along exactly unless a call
   arrives for an address that is not managed, or the pass forgets an address that a call has
   written again after its removal.
   */
  lemma {:induction false} OwnManagedExactly(s: Late, es: seq<Event>)
    requires OwnManaged(s.sys.w)
    ensures OwnAllAlong(s, es) <==> NeverStrays(s, es)
  {
    if es == [] {
      assert es[..0] == [];
    } else {
      var front, e := es[..|es| - 1], es[|es| - 1];
      assert es == front + [e];
      OwnManagedExactly(s, front);
      OwnSnoc(s, front, e);
      StraysSnoc(s, front, e);
      RunSnoc(s, front, e);
      if OwnAllAlong(s, front) {
        LastIsOwn(s, front);
        StepExactly(Run(s, front), e);
      }
    }
  }

  // ---------- Why an address is not managed when its call arrives ----------

  predicate Forgets(s: Late, e: Event, ip: string) {
    e.Base? && e.e.ForgetCall? && e.e.db && s.sys.phase.Forgetting? && s.sys.phase.ip == ip
  }

  lemma OnlyForgettingUnmanages(s: Late, e: Event, ip: string)
    requires ip in s.sys.w.books.managed
    ensures ip !in Step(s, e).sys.w.books.managed <==> Forgets(s, e, ip)
  {
    if e.Base? && e.e.Commit? {
      LedgerRuns.InsertsAreManaged(s.sys.w.books, e.e.tx, s.sys.w.now);
    }
  }

  /** The address was forgotten after event i and before event j. */
  ghost predicate ForgottenBetween(s: Late, es: seq<Event>, i: nat, j: nat, ip: string) {
    exists k: nat :: i <= k < j <= |es| && Forgets(Run(s, es[..k]), es[k], ip)
  }

  lemma RunAt(s: Late, es: seq<Event>, k: nat)
    requires k < |es|
    ensures Run(s, es[..k + 1]) == Step(Run(s, es[..k]), es[k])
  {
    assert es[..k + 1] == es[..k] + [es[k]];
    RunSnoc(s, es[..k], es[k]);
  }

  predicate IsManaged(s: Late, ip: string) { ip in s.sys.w.books.managed }

  lemma ForgottenStep(t: Late, e: Event, t': Late, ip: string)
    requires t' == Step(t, e) && IsManaged(t, ip) && !IsManaged(t', ip)
    ensures Forgets(t, e, ip)
  {
    OnlyForgettingUnmanages(t, e, ip);
  }

  /** Somewhere between a yes and a later no the answer changes. */
  lemma {:induction false} ChangesSomewhere(answers: seq<bool>, i: nat, j: nat) returns (k: nat)
    requires i <= j < |answers| && answers[i] && !answers[j]
    ensures i <= k < j && answers[k] && !answers[k + 1]
    decreases j
  {
    assert i != j;
    if answers[j - 1] {
      k := j - 1;
    } else {
      k := ChangesSomewhere(answers, i, j - 1);
    }
  }

  ghost function ManagedAt(s: Late, es: seq<Event>, ip: string): (answers: seq<bool>)
    ensures |answers| == |es| + 1
    ensures forall k :: 0 <= k <= |es| ==> answers[k] == IsManaged(Run(s, es[..k]), ip)
  {
    seq(|es| + 1, k requires 0 <= k <= |es| => IsManaged(Run(s, es[..k]), ip))
  }

  lemma UnmanagedWasForgotten(s: Late, es: seq<Event>, i: nat, j: nat, ip: string)
    requires i <= j <= |es| && IsManaged(Run(s, es[..i]), ip) && !IsManaged(Run(s, es[..j]), ip)
    ensures ForgottenBetween(s, es, i, j, ip)
  {
    var k := ChangesSomewhere(ManagedAt(s, es, ip), i, j);
    RunAt(s, es, k);
    ForgottenStep(Run(s, es[..k]), es[k], Run(s, es[..k + 1]), ip);
  }

  /** The event records a grant for the address. */
  predicate RecordsFor(t: Late, e: Event, ip: string) {
    e.Base? && e.e.Commit? && ip in LedgerRuns.Inserted(t.sys.w.books, e.e.tx, t.sys.w.now)
  }

  lemma InsertIsManaged(t: Late, e: Event, t': Late, ip: string)
    requires t' == Step(t, e) && RecordsFor(t, e, ip)
    ensures IsManaged(t', ip)
  {
    LedgerRuns.InsertsAreManaged(t.sys.w.books, e.e.tx, t.sys.w.now);
  }

  /** A call that finds its address unmanaged comes after a pass that forgot the address since the grant was recorded. */
  lemma LateCallWasForgotten(s: Late, es: seq<Event>, i: nat, j: nat, ip: string)
    requires i < j < |es| && RecordsFor(Run(s, es[..i]), es[i], ip)
    requires !IsManaged(Run(s, es[..j]), ip)
    ensures ForgottenBetween(s, es, i + 1, j, ip)
  {
    RunAt(s, es, i);
    InsertIsManaged(Run(s, es[..i]), es[i], Run(s, es[..i + 1]), ip);
    UnmanagedWasForgotten(s, es, i + 1, j, ip);
  }

  // ---------- What happens to such an entry ----------

  /** An entry that no pass will look at: neither managed, nor active, nor part of a pass. */
  predicate IsStray(s: I.Sys, ip: string, e: Entry) {
    && ip !in s.w.books.managed && ip !in ActiveIPs(s.w.books, s.w.now)
    && (!s.phase.Idle? ==> ip !in I.SnapIPs(s.phase.snap) && ip !in s.phase.todo)
    && (s.phase.Forgetting? ==> s.phase.ip != ip)
    && (s.w.now < e.expireAt ==> ip in s.w.table && s.w.table[ip] == e)
  }

  /** Passes, whole or broken off, and the clock. */
  predicate OnlyPasses(es: seq<I.Event>) { forall e <- es :: !e.Commit? && !e.Edit? }

  lemma StrayStep(s: I.Sys, e: I.Event, ip: string, entry: Entry)
    requires IsStray(s, ip, entry) && !e.Commit? && !e.Edit?
    ensures IsStray(I.Do(s, e), ip, entry)
  {
    match e
    case Snapshot => I.SnapshotSees(s.w.books, s.w.now);
    case Tick => assert ActiveIPs(s.w.books, s.w.now + 1) <= ActiveIPs(s.w.books, s.w.now);
    case _ =>
  }

  /** However many passes follow, the entry stays on frps until it ends. */
  lemma {:induction false} StrayStays(s: I.Sys, es: seq<I.Event>, ip: string, entry: Entry)
    requires IsStray(s, ip, entry) && OnlyPasses(es)
    ensures IsStray(I.Run(s, es), ip, entry)
  {
    if es != [] {
      var last := |es| - 1;
      assert es[last] in es;
      assert forall e <- es[..last] :: e in es;
      StrayStays(s, es[..last], ip, entry);
      StrayStep(I.Run(s, es[..last]), es[last], ip, entry);
    }
  }

  // ---------- Two runs that leave one ----------

  lemma RunStep(s: Late, es: seq<Event>, k: nat, t: Late)
    requires k < |es| && Step(Run(s, es[..k]), es[k]) == t
    ensures Run(s, es[..k + 1]) == t
  {
    assert es[..k + 1][..k] == es[..k];
  }

  lemma {:induction false} RunConcat(s: Late, a: seq<Event>, b: seq<Event>)
    ensures Run(s, a + b) == Run(Run(s, a), b)
  {
    if b == [] {
      assert a + b == a;
    } else {
      var last := |b| - 1;
      assert (a + b)[..|a + b| - 1] == a + b[..last];
      RunConcat(s, a, b[..last]);
    }
  }

  /** A ledger with these grants and managed addresses, at second zero. */
  function At(gs: seq<Grant>, managed: set<string>, audits: seq<Audit>, t: Table): World {
    World(0, Books(gs, managed, map[], audits), t)
  }

  function Quiet(w: World): Late { Late(I.Sys(w, I.Idle, {}, {}), multiset{}) }

  function Revoked(g: Grant): Grant { g.(revokedAt := Some(0)) }

  function RevokeRow(g: Grant): Audit { AuditOf("admin", Action.Revoked, 0, Revoked(g), 0) }

  predicate IsNew(g: Grant, ip: string) { g.ip == ip && g.expireAt > 0 && g.revokedAt.None? }

  const ENTER: seq<Event> := [Base(I.Snapshot), Base(I.ListManaged)]

  lemma SnapshotSeesNone(gs: seq<Grant>, ip: string, audits: seq<Audit>, granted: set<string>, pending: multiset<string>)
    requires ActiveGrants(gs, 0) == []
    ensures Step(Late(I.Sys(At(gs, {ip}, audits, map[]), I.Idle, granted, {}), pending), Base(I.Snapshot)) ==
            Late(I.Sys(At(gs, {ip}, audits, map[]), I.Adding([], {}), {}, {}), pending)
  {
    assert I.SnapIPs([]) == {} && pending + multiset{} == pending;
  }

  lemma ListFindsStale(gs: seq<Grant>, ip: string, audits: seq<Audit>, pending: multiset<string>)
    ensures Step(Late(I.Sys(At(gs, {ip}, audits, map[]), I.Adding([], {}), {}, {}), pending), Base(I.ListManaged)) ==
            Late(I.Sys(At(gs, {ip}, audits, map[]), I.Removing([], {ip}), {}, {}), pending)
  {
    assert I.SnapIPs([]) == {} && {ip} - {} == {ip} && pending + multiset{} == pending;
  }

  lemma EnterPass(gs: seq<Grant>, ip: string, audits: seq<Audit>, granted: set<string>, pending: multiset<string>)
    requires ActiveGrants(gs, 0) == []
    ensures Run(Late(I.Sys(At(gs, {ip}, audits, map[]), I.Idle, granted, {}), pending), ENTER) ==
            Late(I.Sys(At(gs, {ip}, audits, map[]), I.Removing([], {ip}), {}, {}), pending)
  {
    var s := Late(I.Sys(At(gs, {ip}, audits, map[]), I.Idle, granted, {}), pending);
    SnapshotSeesNone(gs, ip, audits, granted, pending);
    RunOne(s, Base(I.Snapshot));
    ListFindsStale(gs, ip, audits, pending);
    RunSnoc(s, [Base(I.Snapshot)], Base(I.ListManaged));
    assert [Base(I.Snapshot)] + [Base(I.ListManaged)] == ENTER;
  }

  lemma RemoveInPass(gs: seq<Grant>, ip: string, audits: seq<Audit>, pending: multiset<string>)
    ensures Run(Late(I.Sys(At(gs, {ip}, audits, map[]), I.Removing([], {ip}), {}, {}), pending), [Base(I.RemoveCall(ip, Done))]) ==
            Late(I.Sys(At(gs, {ip}, audits, map[]), I.Forgetting([], {}, ip), {}, {}), pending)
  {
    var s := Late(I.Sys(At(gs, {ip}, audits, map[]), I.Removing([], {ip}), {}, {}), pending);
    var es := [Base(I.RemoveCall(ip, Done))];
    var none: Table := map[];
    assert {ip} - {ip} == {} && none - {ip} == none && pending + multiset{} == pending;
    RunStep(s, es, 0, Late(I.Sys(s.sys.w, I.Forgetting([], {}, ip), {}, {}), pending));
    assert es[..1] == es;
  }

  lemma ForgetInPass(gs: seq<Grant>, ip: string, audits: seq<Audit>, granted: set<string>, pending: multiset<string>)
    ensures var t := Run(Late(I.Sys(At(gs, {ip}, audits, map[]), I.Forgetting([], {}, ip), granted, {}), pending),
                         [Base(I.ForgetCall(true)), Base(I.Finish)]);
            t.sys.w == At(gs, {}, audits, map[]) && t.sys.phase.Idle? && t.pending == pending
  {
    var s := Late(I.Sys(At(gs, {ip}, audits, map[]), I.Forgetting([], {}, ip), granted, {}), pending);
    var es := [Base(I.ForgetCall(true)), Base(I.Finish)];
    var orphans := if ip in granted then {} + {ip} else {};
    assert {ip} - {ip} == {} && pending + multiset{} == pending;
    RunStep(s, es, 0, Late(I.Sys(At(gs, {}, audits, map[]), I.Removing([], {}), granted, orphans), pending));
    RunStep(s, es, 1, Late(I.Sys(At(gs, {}, audits, map[]), I.Idle, granted, orphans), pending));
    assert es[..2] == es;
  }

  lemma CommitInPass(ip: string, g: Grant)
    requires IsNew(g, ip)
    ensures Run(Late(I.Sys(At([], {ip}, [], map[]), I.Forgetting([], {}, ip), {}, {}), multiset{}), [Base(I.Commit(AddGrant(g, 0)))]) ==
            Late(I.Sys(At([g], {ip}, [], map[]), I.Forgetting([], {}, ip), {ip}, {}), multiset{ip})
  {
    var s := Late(I.Sys(At([], {ip}, [], map[]), I.Forgetting([], {}, ip), {}, {}), multiset{});
    var es := [Base(I.Commit(AddGrant(g, 0)))];
    GrantIsRecorded({ip}, g);
    assert {ip} + {ip} == {ip} && {} + {ip} == {ip} && multiset([ip]) == multiset{ip};
    RunStep(s, es, 0, Late(I.Sys(At([g], {ip}, [], map[]), s.sys.phase, {ip}, {}), multiset{ip}));
    assert es[..1] == es;
  }

  lemma GrantIsRecorded(managed: set<string>, g: Grant)
    requires g.revokedAt.None?
    ensures Apply(Books([], managed, map[], []), AddGrant(g, 0), 0) == Books([g], managed + {g.ip}, map[], [])
  {
    assert [] + [g] == [g];
  }

  lemma GrantIsRevoked(managed: set<string>, g: Grant)
    requires g.revokedAt.None? && g.expireAt > 0
    ensures Apply(Books([g], managed, map[], []), RevokeAdmin("admin", 0), 0) == Books([Revoked(g)], managed, map[], [RevokeRow(g)])
    ensures ActiveGrants([Revoked(g)], 0) == []
  {
    assert [g][0 := Revoked(g)] == [Revoked(g)] && [] + [RevokeRow(g)] == [RevokeRow(g)];
    assert [Revoked(g)][..0] == [];
  }

  /** The entry that a call leaves, for a revoked grant on an address that is not managed. */
  lemma StrayAfterCall(s: I.Sys, ip: string, g: Grant, ttl: int, operator: string)
    requires s.phase.Idle? && g.ip == ip && ttl > 0
    requires s.w == At([Revoked(g)], {}, [RevokeRow(g)], map[ip := Entry(Duration.Cut(ttl), operator, Gateway)])
    ensures IsStray(s, ip, Entry(Duration.Cut(ttl), operator, Gateway))
  {
  }

  function OverlapEvents(ip: string, g: Grant, ttl: int, operator: string): seq<Event> {
    ENTER + [Base(I.RemoveCall(ip, Done))] + [Base(I.Commit(AddGrant(g, 0)))] + [Base(I.ForgetCall(true)), Base(I.Finish)]
    + [Add(ip, ttl, operator, Done), Base(I.Commit(RevokeAdmin("admin", 0)))]
  }

  lemma CallThenRevoke(s: Late, ip: string, g: Grant, ttl: int, operator: string)
    requires IsNew(g, ip) && ttl > 0 && s.sys.phase.Idle? && s.sys.w == At([g], {}, [], map[]) && s.pending == multiset{ip}
    ensures var t := Run(s, [Add(ip, ttl, operator, Done), Base(I.Commit(RevokeAdmin("admin", 0)))]).sys;
            t.phase.Idle? && t.w == At([Revoked(g)], {}, [RevokeRow(g)], map[ip := Entry(Duration.Cut(ttl), operator, Gateway)])
  {
    var es := [Add(ip, ttl, operator, Done), Base(I.Commit(RevokeAdmin("admin", 0)))];
    var table: Table := map[ip := Entry(Duration.Cut(ttl), operator, Gateway)];
    assert AfterAdd(map[], ip, ttl, operator, 0, Done) == table;
    var called := Late(WithTable(s.sys, table), s.pending - multiset{ip});
    RunStep(s, es, 0, called);
    GrantIsRevoked({}, g);
    RunStep(s, es, 1, Step(called, es[1]));
    assert es[..2] == es;
  }

  /**
   The whole chain of an orphan: a pass removes a stale address, a grant for it is recorded, the pass
   forgets the address, the call of the grant arrives, and the grant is revoked. The entry stays on
   frps until it ends, however many passes follow.
   */
  lemma OrphanOutlivesItsGrant(ip: string, g: Grant, ttl: int, operator: string, passes: seq<I.Event>)
    requires IsNew(g, ip) && ttl > 0 && OnlyPasses(passes)
    ensures var t := Run(Quiet(At([], {ip}, [], map[])), OverlapEvents(ip, g, ttl, operator)).sys;
            ip !in ActiveIPs(t.w.books, t.w.now) && IsStray(I.Run(t, passes), ip, Entry(Duration.Cut(ttl), operator, Gateway))
  {
    var s := Quiet(At([], {ip}, [], map[]));
    var a, b, c := ENTER, [Base(I.RemoveCall(ip, Done))], [Base(I.Commit(AddGrant(g, 0)))];
    var d, e := [Base(I.ForgetCall(true)), Base(I.Finish)], [Add(ip, ttl, operator, Done), Base(I.Commit(RevokeAdmin("admin", 0)))];
    EnterPass([], ip, [], {}, multiset{});
    RunConcat(s, a, b);
    RemoveInPass([], ip, [], multiset{});
    RunConcat(s, a + b, c);
    CommitInPass(ip, g);
    RunConcat(s, a + b + c, d);
    ForgetInPass([g], ip, [], {ip}, multiset{ip});
    RunConcat(s, a + b + c + d, e);
    CallThenRevoke(Run(s, a + b + c + d), ip, g, ttl, operator);
    var t := Run(s, OverlapEvents(ip, g, ttl, operator)).sys;
    StrayAfterCall(t, ip, g, ttl, operator);
    StrayStays(t, passes, ip, Entry(Duration.Cut(ttl), operator, Gateway));
  }

  function LateEvents(ip: string, g: Grant, ttl: int, operator: string): seq<Event> {
    [Base(I.Commit(AddGrant(g, 0))), Base(I.Commit(RevokeAdmin("admin", 0)))]
    + ENTER + [Base(I.RemoveCall(ip, Done))] + [Base(I.ForgetCall(true)), Base(I.Finish)] + [Add(ip, ttl, operator, Done)]
  }

  lemma GrantCommits(ip: string, g: Grant)
    requires IsNew(g, ip)
    ensures Step(Quiet(At([], {}, [], map[])), Base(I.Commit(AddGrant(g, 0)))) ==
            Late(I.Sys(At([g], {ip}, [], map[]), I.Idle, {ip}, {}), multiset{ip})
  {
    GrantIsRecorded({}, g);
    assert {} + {ip} == {ip} && multiset([ip]) == multiset{ip};
  }

  lemma RevokeCommits(ip: string, g: Grant)
    requires IsNew(g, ip)
    ensures Step(Late(I.Sys(At([g], {ip}, [], map[]), I.Idle, {ip}, {}), multiset{ip}), Base(I.Commit(RevokeAdmin("admin", 0)))) ==
            Late(I.Sys(At([Revoked(g)], {ip}, [RevokeRow(g)], map[]), I.Idle, {ip}, {}), multiset{ip})
  {
    GrantIsRevoked({ip}, g);
    assert {ip} + {} == {ip};
  }

  lemma GrantThenRevoke(ip: string, g: Grant)
    requires IsNew(g, ip)
    ensures Run(Quiet(At([], {}, [], map[])), [Base(I.Commit(AddGrant(g, 0))), Base(I.Commit(RevokeAdmin("admin", 0)))]) ==
            Late(I.Sys(At([Revoked(g)], {ip}, [RevokeRow(g)], map[]), I.Idle, {ip}, {}), multiset{ip})
  {
    var s := Quiet(At([], {}, [], map[]));
    var a, b := Base(I.Commit(AddGrant(g, 0))), Base(I.Commit(RevokeAdmin("admin", 0)));
    GrantCommits(ip, g);
    RunOne(s, a);
    RevokeCommits(ip, g);
    RunSnoc(s, [a], b);
    assert [a] + [b] == [a, b];
  }

  lemma CallArrives(s: Late, ip: string, ttl: int, operator: string)
    requires ip in s.pending && ttl > 0 && s.sys.w.table == map[] && s.sys.w.now == 0
    ensures Run(s, [Add(ip, ttl, operator, Done)]).sys == WithTable(s.sys, map[ip := Entry(Duration.Cut(ttl), operator, Gateway)])
  {
    var es := [Add(ip, ttl, operator, Done)];
    RunStep(s, es, 0, Step(s, es[0]));
    assert es[..1] == es;
  }

  /**
   A late call: a grant is recorded and revoked, a pass removes and forgets its address, and only
   then its call arrives. The entry has no grant and stays on frps until it ends.
   */
  lemma LateCallOutlivesItsGrant(ip: string, g: Grant, ttl: int, operator: string, passes: seq<I.Event>)
    requires IsNew(g, ip) && ttl > 0 && OnlyPasses(passes)
    ensures var t := Run(Quiet(At([], {}, [], map[])), LateEvents(ip, g, ttl, operator)).sys;
            ip !in ActiveIPs(t.w.books, t.w.now) && IsStray(I.Run(t, passes), ip, Entry(Duration.Cut(ttl), operator, Gateway))
  {
    var s := Quiet(At([], {}, [], map[]));
    var gs, audits := [Revoked(g)], [RevokeRow(g)];
    var a, b, c := [Base(I.Commit(AddGrant(g, 0))), Base(I.Commit(RevokeAdmin("admin", 0)))], ENTER, [Base(I.RemoveCall(ip, Done))];
    var d, e := [Base(I.ForgetCall(true)), Base(I.Finish)], [Add(ip, ttl, operator, Done)];
    GrantThenRevoke(ip, g);
    GrantIsRevoked({}, g);
    RunConcat(s, a, b);
    EnterPass(gs, ip, audits, {ip}, multiset{ip});
    RunConcat(s, a + b, c);
    RemoveInPass(gs, ip, audits, multiset{ip});
    RunConcat(s, a + b + c, d);
    ForgetInPass(gs, ip, audits, {}, multiset{ip});
    RunConcat(s, a + b + c + d, e);
    CallArrives(Run(s, a + b + c + d), ip, ttl, operator);
    var t := Run(s, LateEvents(ip, g, ttl, operator)).sys;
    StrayAfterCall(t, ip, g, ttl, operator);
    StrayStays(t, passes, ip, Entry(Duration.Cut(ttl), operator, Gateway));
  }

  /** Every grant recorded by chat or link is followed by a call for its address. */
  lemma RecordedIsPending(s: Late, tx: Tx, ip: string)
    requires (tx.AddGrant? || tx.Consume?) && ip in LedgerRuns.Inserted(s.sys.w.books, tx, s.sys.w.now)
    ensures ip in Step(s, Base(I.Commit(tx))).pending
  {
    assert ip in CallsFor(s.sys.w.books, tx, s.sys.w.now);
  }

  // ---------- Whole operations as steps ----------

  lemma CommitIs(s: Late, tx: Tx)
    requires !tx.Forget?
    ensures var t := Step(s, Base(I.Commit(tx)));
            t.sys.w == s.sys.w.(books := Apply(s.sys.w.books, tx, s.sys.w.now))
            && t.pending == s.pending + multiset(CallsFor(s.sys.w.books, tx, s.sys.w.now))
  {
  }

  function GrantTx(w: World, cfg: Commands.Config, r: Commands.Request, ip: string, ttl: int): Tx {
    AddGrant(Grant(r.openId, r.name, ip, FeishuCommand, w.now, w.now + ttl, None), cfg.maxActive)
  }

  lemma AddingIs(w: World, cfg: Commands.Config, r: Commands.Request, ip: string, asked: int, luck: Commands.Luck)
    requires luck.first && (if asked == 0 then cfg.defaultTTL else asked) <= cfg.maxTTL
    ensures var ttl := if asked == 0 then cfg.defaultTTL else asked;
            var tx := GrantTx(w, cfg, r, ip, ttl);
            Commands.Adding(w, cfg, r, ip, asked, luck).0 ==
            if Check(w.books, tx, w.now).Some? then w
            else
              World(w.now, Apply(w.books, tx, w.now),
                    AfterAdd(w.table, ip, ttl, Names.DisplayName(r.name, r.openId), w.now, luck.call))
  {
  }

  /** What a chat grant does is its transaction and, if that was accepted, its call. */
  lemma AddingIsSteps(s: Late, cfg: Commands.Config, r: Commands.Request, ip: string, asked: int, luck: Commands.Luck)
    requires luck.first && (if asked == 0 then cfg.defaultTTL else asked) <= cfg.maxTTL
    ensures var ttl := if asked == 0 then cfg.defaultTTL else asked;
            var tx := GrantTx(s.sys.w, cfg, r, ip, ttl);
            var t := Step(s, Base(I.Commit(tx)));
            Commands.Adding(s.sys.w, cfg, r, ip, asked, luck).0 ==
            if Check(s.sys.w.books, tx, s.sys.w.now).Some? then t.sys.w
            else Step(t, Add(ip, ttl, Names.DisplayName(r.name, r.openId), luck.call)).sys.w
  {
    var w, ttl := s.sys.w, if asked == 0 then cfg.defaultTTL else asked;
    var tx := GrantTx(w, cfg, r, ip, ttl);
    var t := Step(s, Base(I.Commit(tx)));
    CommitIs(s, tx);
    AddingIs(w, cfg, r, ip, asked, luck);
    if Check(w.books, tx, w.now).None? {
      assert ip in t.pending;
      CallIs(t, ip, ttl, Names.DisplayName(r.name, r.openId), luck.call,
             AfterAdd(w.table, ip, ttl, Names.DisplayName(r.name, r.openId), w.now, luck.call));
    }
  }

  /** The call of a removal, if it comes to it: for the holders that remain, or to take the address off. */
  ghost function CallOfRemoval(w: World, ip: string, c: Call): Event {
    match EffectiveExpiry(w.books.grants, ip, w.now)
    case Some(x) => Add(ip, x - w.now, Names.Label(HolderNames(ActiveGrants(w.books.grants, w.now), ip)), c)
    case None => Remove(ip, c)
  }

  lemma ResyncIsCall(s: Late, ip: string, luck: Commands.Luck)
    requires ip in s.pending
    ensures Commands.Resynced(s.sys.w, ip, luck).0 ==
            if luck.second && (EffectiveExpiry(s.sys.w.books.grants, ip, s.sys.w.now).Some? ==> luck.third) then
              Step(s, CallOfRemoval(s.sys.w, ip, luck.call)).sys.w
            else s.sys.w
  {
  }

  lemma RemovingIs(w: World, r: Commands.Request, ip: string, luck: Commands.Luck)
    requires luck.first
    ensures var revoked := w.(books := Apply(w.books, RevokeUser(r.openId, ip), w.now));
            Commands.Removing(w, r, ip, luck).0 ==
            if CallsFor(w.books, RevokeUser(r.openId, ip), w.now) == [ip] then Commands.Resynced(revoked, ip, luck).0 else revoked
  {
  }

  /** What a removal does is its transaction and, if that found something and the holders can be read, its call. */
  lemma RemovingIsSteps(s: Late, r: Commands.Request, ip: string, luck: Commands.Luck)
    requires luck.first
    ensures var w := s.sys.w;
            var t := Step(s, Base(I.Commit(RevokeUser(r.openId, ip))));
            var called := CallsFor(w.books, RevokeUser(r.openId, ip), w.now) == [ip] && luck.second
                          && (EffectiveExpiry(t.sys.w.books.grants, ip, w.now).Some? ==> luck.third);
            Commands.Removing(w, r, ip, luck).0 == (if called then Step(t, CallOfRemoval(t.sys.w, ip, luck.call)) else t).sys.w
  {
    var tx := RevokeUser(r.openId, ip);
    var t := Step(s, Base(I.Commit(tx)));
    CommitIs(s, tx);
    RemovingIs(s.sys.w, r, ip, luck);
    if CallsFor(s.sys.w.books, tx, s.sys.w.now) == [ip] {
      assert ip in t.pending;
      ResyncIsCall(t, ip, luck);
    }
  }

  function IPsOf(gs: seq<Grant>): multiset<string> {
    if gs == [] then multiset{} else multiset{gs[0].ip} + IPsOf(gs[1..])
  }

  lemma CallIs(s: Late, ip: string, ttl: int, operator: string, c: Call, table: Table)
    requires ip in s.pending && table == AfterAdd(s.sys.w.table, ip, ttl, operator, s.sys.w.now, c)
    ensures Step(s, Add(ip, ttl, operator, c)) == Late(WithTable(s.sys, table), s.pending - multiset{ip})
  {
  }

  lemma GrantCallIs(s: Late, g: Grant, operator: string, calls: string -> Call)
    requires g.ip in s.pending
    ensures Step(s, Add(g.ip, g.expireAt - s.sys.w.now, operator, calls(g.ip))) ==
            Late(WithTable(s.sys, Authorize.AddFirst(s.sys.w.table, g, operator, s.sys.w.now, calls)), s.pending - multiset{g.ip})
  {
  }

  lemma RunCons(s: Late, e: Event, es: seq<Event>)
    ensures Run(s, [e] + es) == Run(Step(s, e), es)
  {
    RunConcat(s, [e], es);
    RunOne(s, e);
  }

  lemma {:induction false} EachIsSteps(s: Late, gs: seq<Grant>, operator: string, calls: string -> Call) returns (es: seq<Event>)
    requires IPsOf(gs) <= s.pending
    ensures Run(s, es).sys == WithTable(s.sys, Authorize.AddEach(s.sys.w.table, gs, operator, s.sys.w.now, calls).0)
    ensures forall e <- es :: e.Add?
    decreases |gs|
  {
    if gs == [] {
      es := [];
    } else {
      var g := gs[0];
      var call := Add(g.ip, g.expireAt - s.sys.w.now, operator, calls(g.ip));
      GrantCallIs(s, g, operator, calls);
      es := [];
      if Authorize.Succeeds(g, s.sys.w.now, calls) {
        es := EachIsSteps(Step(s, call), gs[1..], operator, calls);
      }
      RunCons(s, call, es);
      es := [call] + es;
    }
  }

  lemma LinkGrantsFront(t: Token, targets: seq<string>, now: int)
    requires targets != []
    ensures var gs := LinkGrants(t, targets, now); gs[0].ip == targets[0] && gs[1..] == LinkGrants(t, targets[1..], now)
  {
  }

  lemma {:induction false} LinkIPs(t: Token, targets: seq<string>, now: int)
    ensures IPsOf(LinkGrants(t, targets, now)) == multiset(targets)
  {
    if targets != [] {
      LinkIPs(t, targets[1..], now);
      LinkGrantsFront(t, targets, now);
      assert multiset([targets[0]] + targets[1..]) == multiset{targets[0]} + multiset(targets[1..]);
      assert targets == [targets[0]] + targets[1..];
    }
  }

  /** What a confirmed link does is its transaction and, if that was accepted, calls for its grants up to the first that fails. */
  lemma PostingIsSteps(s: Late, max: int, ip: string, v4: Option<string>, hash: string, calls: string -> Call)
    returns (es: seq<Event>)
    ensures var t := Step(s, Base(I.Commit(Consume(hash, Authorize.TargetsOf(ip, v4), max))));
            Run(t, es).sys.w == Authorize.Posted(s.sys.w, max, ip, v4, hash, true, calls).0
    ensures forall e <- es :: e.Add?
  {
    var w, tx := s.sys.w, Consume(hash, Authorize.TargetsOf(ip, v4), max);
    CommitIs(s, tx);
    es := [];
    if Check(w.books, tx, w.now).None? {
      var token := w.books.tokens[hash];
      var targets := Distinct(Authorize.TargetsOf(ip, v4));
      LinkIPs(token, targets, w.now);
      es := EachIsSteps(Step(s, Base(I.Commit(tx))), LinkGrants(token, targets, w.now), Names.DisplayName(token.name, token.openId), calls);
    }
  }
}
