/**
 The admin audit log over whole runs: its rows replay every admin-created grant.
 */
module AuditHistory {
  import opened Options
  import opened Ledger
  import opened LedgerRuns

  /** What the audit log says about a grant. */
  datatype View = View(expireAt: int, revoked: bool)

  /** The rows of one grant, folded in order; nothing before the row that created it. */
  function Replay(audits: seq<Audit>, id: nat): Option<View> {
    if audits == [] then None
    else
      var before := Replay(audits[..|audits| - 1], id);
      var a := audits[|audits| - 1];
      if a.grantId != id then before
      else match a.action
        case Added => Some(View(a.expireAt, false))
        case Extended => if before.Some? then Some(before.value.(expireAt := a.expireAt)) else None
        case Revoked => if before.Some? then Some(before.value.(revoked := true)) else None
  }

  predicate IsAdminChange(tx: Tx) { tx.CreateAdmin? || tx.ExtendAdmin? || tx.RevokeAdmin? }

  /** Admin mutations that succeeded in a run. */
  function AdminChanges(s: Clocked, es: seq<Event>): nat {
    if es == [] then 0
    else
      var t := After(s, es[..|es| - 1]);
      var e := es[|es| - 1];
      AdminChanges(s, es[..|es| - 1])
      + if e.Do? && IsAdminChange(e.tx) && Check(t.books, e.tx, t.now).None? then 1 else 0
  }

  /** The grants some RevokeUserIP of a run has revoked. */
  function UserRevoked(s: Clocked, es: seq<Event>): set<nat> {
    if es == [] then {}
    else
      UserRevoked(s, es[..|es| - 1]) + HitBy(After(s, es[..|es| - 1]), es[|es| - 1])
  }

  function HitBy(t: Clocked, e: Event): set<nat> {
    if e.Do? && e.tx.RevokeUser? then
      set i: nat | i < |t.books.grants| && t.books.grants[i].HeldBy(e.tx.openId, t.now) && t.books.grants[i].ip == e.tx.ip
    else {}
  }

  /** The log and the ledger tell the same story about one grant. */
  ghost predicate Agrees(b: Books, id: nat, touched: bool) {
    var v := Replay(b.audits, id);
    v.Some? ==>
      && id < |b.grants|
      && v.value.expireAt == b.grants[id].expireAt
      && (v.value.revoked ==> b.grants[id].revokedAt.Some?)
      && (!touched ==> v.value.revoked == b.grants[id].revokedAt.Some?)
  }

  /** Rows name existing grants, at most one row revokes a grant, and none follows it. */
  ghost predicate RevokeIsLast(b: Books) {
    && (forall j :: 0 <= j < |b.audits| ==> b.audits[j].grantId < |b.grants|)
    && (forall j :: 0 <= j < |b.audits| && b.audits[j].action == Revoked ==> b.grants[b.audits[j].grantId].revokedAt.Some?)
    && (forall i, j :: 0 <= i < j < |b.audits| && b.audits[i].action == Revoked ==> b.audits[i].grantId != b.audits[j].grantId)
  }

  lemma ReplaySnoc(audits: seq<Audit>, a: Audit, id: nat)
    ensures Replay(audits + [a], id) ==
            if a.grantId != id then Replay(audits, id)
            else if a.action == Added then Some(View(a.expireAt, false))
            else if Replay(audits, id).None? then None
            else if a.action == Extended then Some(Replay(audits, id).value.(expireAt := a.expireAt))
            else Some(Replay(audits, id).value.(revoked := true))
  {
    assert (audits + [a])[..|audits|] == audits;
  }

  lemma {:induction false} ReplayIgnoresResults(audits: seq<Audit>, k: nat, r: SyncResult, id: nat)
    requires k < |audits|
    ensures Replay(audits[k := audits[k].(result := r)], id) == Replay(audits, id)
  {
    var changed := audits[k := audits[k].(result := r)];
    var last := |audits| - 1;
    if k == last {
      assert changed[..last] == audits[..last];
    } else {
      assert changed[..last] == audits[..last][k := audits[k].(result := r)];
      ReplayIgnoresResults(audits[..last], k, r, id);
    }
  }

  lemma {:induction false} ReplayNeedsRows(b: Books, id: nat)
    requires RevokeIsLast(b) && id >= |b.grants|
    ensures Replay(b.audits, id).None?
  {
    UnnamedIsNone(b.audits, id);
  }

  lemma {:induction false} UnnamedIsNone(audits: seq<Audit>, id: nat)
    requires forall j :: 0 <= j < |audits| ==> audits[j].grantId != id
    ensures Replay(audits, id).None?
  {
    if audits != [] {
      UnnamedIsNone(audits[..|audits| - 1], id);
    }
  }

  lemma CreateAgrees(s: Clocked, actor: string, g: Grant, id: nat, touched: bool)
    requires Agrees(s.books, id, touched) && RevokeIsLast(s.books)
    ensures Agrees(Effect(s.books, CreateAdmin(actor, g), s.now), id, touched)
  {
    var b := s.books;
    ReplaySnoc(b.audits, AuditOf(actor, Added, |b.grants|, g, s.now), id);
    ReplayNeedsRows(b, |b.grants|);
  }

  lemma ExtendAgrees(s: Clocked, actor: string, k: nat, x: int, id: nat, touched: bool)
    requires Agrees(s.books, id, touched) && Check(s.books, ExtendAdmin(actor, k, x), s.now).None?
    ensures Agrees(Effect(s.books, ExtendAdmin(actor, k, x), s.now), id, touched)
  {
    ReplaySnoc(s.books.audits, AuditOf(actor, Extended, k, s.books.grants[k].(expireAt := x), s.now), id);
  }

  lemma RevokeAgrees(s: Clocked, actor: string, k: nat, id: nat, touched: bool)
    requires Agrees(s.books, id, touched) && Check(s.books, RevokeAdmin(actor, k), s.now).None?
    ensures Agrees(Effect(s.books, RevokeAdmin(actor, k), s.now), id, touched)
  {
    ReplaySnoc(s.books.audits, AuditOf(actor, Revoked, k, s.books.grants[k].(revokedAt := Some(s.now)), s.now), id);
  }

  lemma UserRevokeAgrees(s: Clocked, e: Event, id: nat, touched: bool)
    requires Agrees(s.books, id, touched) && e.Do? && e.tx.RevokeUser?
    ensures Agrees(Step(s, e).books, id, touched || id in HitBy(s, e))
  {
  }

  lemma AgreesStays(s: Clocked, e: Event, id: nat, touched: bool)
    requires Agrees(s.books, id, touched) && RevokeIsLast(s.books)
    ensures Agrees(Step(s, e).books, id, touched || id in HitBy(s, e))
  {
    if e.Do? && Check(s.books, e.tx, s.now).None? {
      match e.tx
      case CreateAdmin(actor, g) => CreateAgrees(s, actor, g, id, touched);
      case ExtendAdmin(actor, k, x) => ExtendAgrees(s, actor, k, x, id, touched);
      case RevokeAdmin(actor, k) => RevokeAgrees(s, actor, k, id, touched);
      case SetResult(k, r) =>
        if k < |s.books.audits| {
          ReplayIgnoresResults(s.books.audits, k, r, id);
        }
      case RevokeUser(_, _) => UserRevokeAgrees(s, e, id, touched);
      case _ =>
    }
  }

  /** Grants stay, and a revoked grant stays revoked. */
  ghost predicate KeepsRevocations(gs: seq<Grant>, gs': seq<Grant>) {
    |gs| <= |gs'| && forall i :: 0 <= i < |gs| && gs[i].revokedAt.Some? ==> gs'[i].revokedAt.Some?
  }

  lemma RevokeLastWithoutRow(b: Books, b': Books)
    requires RevokeIsLast(b) && KeepsRevocations(b.grants, b'.grants) && |b'.audits| == |b.audits|
    requires forall j :: 0 <= j < |b.audits| ==>
               b'.audits[j].grantId == b.audits[j].grantId && b'.audits[j].action == b.audits[j].action
    ensures RevokeIsLast(b')
  {
  }

  lemma RevokeLastWithRow(b: Books, b': Books, a: Audit)
    requires RevokeIsLast(b) && KeepsRevocations(b.grants, b'.grants) && b'.audits == b.audits + [a]
    requires a.grantId < |b'.grants| && (a.grantId < |b.grants| ==> b.grants[a.grantId].revokedAt.None?)
    requires a.action == Revoked ==> b'.grants[a.grantId].revokedAt.Some?
    ensures RevokeIsLast(b')
  {
  }

  lemma RevokeStaysLast(s: Clocked, e: Event)
    requires RevokeIsLast(s.books)
    ensures RevokeIsLast(Step(s, e).books)
  {
    var b, b' := s.books, Step(s, e).books;
    assert KeepsRevocations(b.grants, b'.grants);
    if e.Do? && IsAdminChange(e.tx) && Check(b, e.tx, s.now).None? {
      RevokeLastWithRow(b, b', b'.audits[|b.audits|]);
    } else {
      RevokeLastWithoutRow(b, b');
    }
  }

  lemma {:induction false} CreatedIsReplayed(audits: seq<Audit>, id: nat, j: nat)
    requires j < |audits| && audits[j].grantId == id && audits[j].action == Added
    ensures Replay(audits, id).Some?
  {
    if j < |audits| - 1 {
      CreatedIsReplayed(audits[..|audits| - 1], id, j);
    }
  }

  lemma OneRowEach(s: Clocked, e: Event)
    ensures |Step(s, e).books.audits| == |s.books.audits| +
            if e.Do? && IsAdminChange(e.tx) && Check(s.books, e.tx, s.now).None? then 1 else 0
  {
  }

  /** One audit row for each admin mutation that succeeded; a revoke is the last row of its grant. */
  lemma {:induction false} AuditRowsCount(now: int, es: seq<Event>)
    ensures var b := After(Clocked(now, EMPTY), es).books;
            |b.audits| == AdminChanges(Clocked(now, EMPTY), es) && RevokeIsLast(b)
  {
    if es != [] {
      AuditRowsCount(now, es[..|es| - 1]);
      OneRowEach(After(Clocked(now, EMPTY), es[..|es| - 1]), es[|es| - 1]);
      RevokeStaysLast(After(Clocked(now, EMPTY), es[..|es| - 1]), es[|es| - 1]);
    }
  }

  /** Replaying the log gives the expiry of every admin-created grant, and its revocation unless a user revoked it. */
  lemma {:induction false} AuditReplays(now: int, es: seq<Event>, id: nat)
    ensures Agrees(After(Clocked(now, EMPTY), es).books, id, id in UserRevoked(Clocked(now, EMPTY), es))
  {
    if es != [] {
      AuditReplays(now, es[..|es| - 1], id);
      AuditRowsCount(now, es[..|es| - 1]);
      AgreesStays(After(Clocked(now, EMPTY), es[..|es| - 1]), es[|es| - 1], id,
                  id in UserRevoked(Clocked(now, EMPTY), es[..|es| - 1]));
    }
  }
}
