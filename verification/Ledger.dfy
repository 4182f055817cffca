/**
 The SQLite ledger: grants, managed IPs, one-time tokens and the admin audit log.

 Each write of the store is one SQL transaction on one connection, so it is a `Tx`:
 `Check` says whether it is refused and why, `Effect` what it writes. The methods of
 `Store` run the statements; their contracts tie them to `Check` and `Effect`.
 A grant or audit row is named by its position in its table.
 */
module Ledger {
  import opened Options
  import opened Sets

  datatype Source = FeishuCommand | FeishuLink | AdminWeb

  datatype Grant = Grant(openId: string, name: string, ip: string, source: Source,
                         createdAt: int, expireAt: int, revokedAt: Option<int>) {
    predicate Active(now: int) { revokedAt.None? && expireAt > now }

    predicate HeldBy(user: string, now: int) { openId == user && Active(now) }
  }

  datatype Token = Token(openId: string, name: string, messageId: string,
                         ttl: int, expiresAt: int, usedAt: Option<int>) {
    predicate Usable(now: int) { usedAt.None? && expiresAt >= now }
  }

  datatype Action = Added | Extended | Revoked

  datatype SyncResult = Recorded | InSync | NotInSync

  datatype Audit = Audit(actor: string, action: Action, grantId: nat, openId: string, name: string,
                         ip: string, createdAt: int, expireAt: int, result: SyncResult)

  datatype Books = Books(grants: seq<Grant>, managed: set<string>, tokens: map<string, Token>, audits: seq<Audit>)

  datatype Fault = TokenInvalid | LimitReached | NotFound | Inactive | Duplicate | KeyKnown | DbError

  datatype Tx =
    | AddGrant(grant: Grant, max: int)
    | CreateToken(hash: string, token: Token)
    | Consume(hash: string, ips: seq<string>, max: int)
    | RevokeUser(openId: string, ip: string)
    | CreateAdmin(actor: string, grant: Grant)
    | ExtendAdmin(actor: string, id: nat, expireAt: int)
    | RevokeAdmin(actor: string, id: nat)
    | SetResult(auditId: nat, result: SyncResult)
    | Forget(ip: string)

  // ---------- Queries ----------

  function LiveIPs(gs: seq<Grant>, now: int): set<string> {
    set g <- gs | g.Active(now) :: g.ip
  }

  function ActiveIPs(b: Books, now: int): set<string> {
    LiveIPs(b.grants, now)
  }

  function HeldIPs(b: Books, user: string, now: int): set<string> {
    set g <- b.grants | g.HeldBy(user, now) :: g.ip
  }

  /** The test of the single form: the user's other active IPs leave room for one. */
  predicate AllowsOne(b: Books, user: string, ip: string, max: int, now: int) {
    max <= 0 || |set g <- b.grants | g.HeldBy(user, now) && g.ip != ip :: g.ip| < max
  }

  /** The test of the batch form. */
  predicate AllowsAll(b: Books, user: string, targets: seq<string>, max: int, now: int) {
    max <= 0 || |set g <- b.grants | g.HeldBy(user, now) && g.ip !in targets :: g.ip| + |targets| <= max
  }

  /** The addresses of a request, each at its first place. */
  function Distinct(ips: seq<string>): (r: seq<string>)
    ensures forall ip :: ip in r <==> ip in ips
    ensures r == [] <==> ips == []
    ensures forall i, j :: 0 <= i < j < |r| ==> r[i] != r[j]
  {
    if ips == [] then []
    else
      var r := Distinct(ips[..|ips| - 1]);
      var ip := ips[|ips| - 1];
      assert ips == ips[..|ips| - 1] + [ip];
      if ip in r then r else r + [ip]
  }

  function LinkGrants(t: Token, targets: seq<string>, now: int): (gs: seq<Grant>)
    ensures |gs| == |targets|
  {
    seq(|targets|, i requires 0 <= i < |targets| =>
      Grant(t.openId, t.name, targets[i], FeishuLink, now, now + t.ttl, None))
  }

  /** A live grant of the user on the address. */
  predicate Hits(g: Grant, user: string, ip: string, now: int) { g.HeldBy(user, now) && g.ip == ip }

  lemma HitsAreRows(gs: seq<Grant>, user: string, ip: string, now: int)
    ensures (exists j :: 0 <= j < |gs| && Hits(gs[j], user, ip, now)) <==> exists g <- gs :: Hits(g, user, ip, now)
  {
    if g :| g in gs && Hits(g, user, ip, now) {
      var j :| 0 <= j < |gs| && gs[j] == g;
      assert Hits(gs[j], user, ip, now);
    }
    if j :| 0 <= j < |gs| && Hits(gs[j], user, ip, now) {
      assert gs[j] in gs;
    }
  }

  /** One row of the token's owner for each address, from now for the token's lifetime. */
  ghost predicate AreLinkRows(rows: seq<Grant>, t: Token, ips: set<string>, now: int) {
    && (forall g <- rows :: g.ip in ips && g == Grant(t.openId, t.name, g.ip, FeishuLink, now, now + t.ttl, None))
    && (forall ip <- ips :: exists g <- rows :: g.ip == ip)
    && (forall i, j :: 0 <= i < j < |rows| ==> rows[i].ip != rows[j].ip)
  }

  lemma LinkRowsAre(t: Token, ips: seq<string>, now: int)
    ensures AreLinkRows(LinkGrants(t, Distinct(ips), now), t, SetOf(ips), now)
  {
    var targets := Distinct(ips);
    var rows := LinkGrants(t, targets, now);
    forall ip | ip in ips
      ensures exists g <- rows :: g.ip == ip
    {
      var i :| 0 <= i < |targets| && targets[i] == ip;
      assert rows[i] in rows;
    }
  }

  /** The row after the UPDATE: revoked if it is a live grant of the user on the address. */
  function IfHit(g: Grant, user: string, ip: string, now: int): Grant {
    if g.openId == user && g.ip == ip && g.revokedAt.None? && now < g.expireAt then g.(revokedAt := Some(now)) else g
  }

  function RevokedBy(gs: seq<Grant>, user: string, ip: string, now: int): (r: seq<Grant>)
    ensures |r| == |gs|
  {
    seq(|gs|, i requires 0 <= i < |gs| =>
      if Hits(gs[i], user, ip, now) then gs[i].(revokedAt := Some(now)) else gs[i])
  }

  function AuditOf(actor: string, action: Action, id: nat, g: Grant, now: int): Audit {
    Audit(actor, action, id, g.openId, g.name, g.ip, now, g.expireAt, Recorded)
  }

  // ---------- Transactions ----------

  /** Why a transaction is refused, if it is. */
  function Check(b: Books, tx: Tx, now: int): Option<Fault> {
    match tx
    case AddGrant(g, max) => if AllowsOne(b, g.openId, g.ip, max, now) then None else Some(LimitReached)
    case CreateToken(h, t) =>
      if exists k <- b.tokens :: b.tokens[k].messageId == t.messageId then Some(Duplicate)
      else if h in b.tokens then Some(KeyKnown) else None
    case Consume(h, ips, max) =>
      if ips == [] || h !in b.tokens || !b.tokens[h].Usable(now) then Some(TokenInvalid)
      else if AllowsAll(b, b.tokens[h].openId, Distinct(ips), max, now) then None else Some(LimitReached)
    case ExtendAdmin(_, id, _) => CheckMutable(b, id, now)
    case RevokeAdmin(_, id) => CheckMutable(b, id, now)
    case _ => None
  }

  function CheckMutable(b: Books, id: nat, now: int): Option<Fault> {
    if id >= |b.grants| then Some(NotFound)
    else if !b.grants[id].Active(now) then Some(Inactive) else None
  }

  function Effect(b: Books, tx: Tx, now: int): Books
    requires Check(b, tx, now).None?
  {
    match tx
    case AddGrant(g, _) =>
      b.(grants := b.grants + [g.(revokedAt := None)], managed := b.managed + {g.ip})
    case CreateToken(h, t) => b.(tokens := b.tokens[h := t.(usedAt := None)])
    case Consume(h, ips, _) =>
      var t := b.tokens[h];
      b.(tokens := b.tokens[h := t.(usedAt := Some(now))],
         grants := b.grants + LinkGrants(t, Distinct(ips), now),
         managed := b.managed + set ip <- ips)
    case RevokeUser(user, ip) => b.(grants := RevokedBy(b.grants, user, ip, now))
    case CreateAdmin(actor, g) =>
      b.(grants := b.grants + [g.(revokedAt := None)], managed := b.managed + {g.ip},
         audits := b.audits + [AuditOf(actor, Added, |b.grants|, g, now)])
    case ExtendAdmin(actor, id, e) =>
      var g := b.grants[id].(expireAt := e);
      b.(grants := b.grants[id := g], managed := b.managed + {g.ip},
         audits := b.audits + [AuditOf(actor, Extended, id, g, now)])
    case RevokeAdmin(actor, id) =>
      var g := b.grants[id].(revokedAt := Some(now));
      b.(grants := b.grants[id := g], audits := b.audits + [AuditOf(actor, Revoked, id, g, now)])
    case SetResult(a, r) =>
      if a < |b.audits| then b.(audits := b.audits[a := b.audits[a].(result := r)]) else b
    case Forget(ip) => b.(managed := b.managed - {ip})
  }

  function Apply(b: Books, tx: Tx, now: int): Books {
    if Check(b, tx, now).None? then Effect(b, tx, now) else b
  }

  /** A store call: refused by the database or by the transaction without a trace, or done. */
  predicate Committed(b: Books, b': Books, tx: Tx, now: int, db: bool, fault: Option<Fault>) {
    && fault == (if db then Check(b, tx, now) else Some(DbError))
    && b' == (if db then Apply(b, tx, now) else b)
  }

  /** The two limit tests agree on one address. */
  lemma SingleFormIsBatchForm(b: Books, user: string, ip: string, max: int, now: int)
    ensures AllowsOne(b, user, ip, max, now) <==> AllowsAll(b, user, [ip], max, now)
  {
    assert (set g <- b.grants | g.HeldBy(user, now) && g.ip != ip :: g.ip)
        == (set g <- b.grants | g.HeldBy(user, now) && g.ip !in [ip] :: g.ip);
  }

  // ---------- What the tests mean ----------

  /** The addresses a user holds: not revoked and not run out. */
  lemma HeldIPsAre(b: Books, user: string, now: int)
    ensures HeldIPs(b, user, now) == set g <- b.grants | g.openId == user && g.revokedAt.None? && now < g.expireAt :: g.ip
  {
  }

  lemma ActiveIPsAre(b: Books, now: int)
    ensures ActiveIPs(b, now) == set g <- b.grants | g.revokedAt.None? && now < g.expireAt :: g.ip
  {
  }

  /** A grant is allowed exactly when the user's addresses with the new one stay within the limit. */
  lemma AllowsOneExactly(b: Books, user: string, ip: string, max: int, now: int)
    ensures AllowsOne(b, user, ip, max, now) <==> max <= 0 || |HeldIPs(b, user, now) + {ip}| <= max
  {
    var others := set g <- b.grants | g.HeldBy(user, now) && g.ip != ip :: g.ip;
    assert HeldIPs(b, user, now) + {ip} == others + {ip};
  }

  function SetOf(xs: seq<string>): set<string> { set x <- xs }

  lemma {:induction false} DistinctSize(xs: seq<string>)
    requires forall i, j :: 0 <= i < j < |xs| ==> xs[i] != xs[j]
    ensures |SetOf(xs)| == |xs|
  {
    if xs != [] {
      var last := |xs| - 1;
      DistinctSize(xs[..last]);
      assert xs == xs[..last] + [xs[last]];
      assert SetOf(xs) == SetOf(xs[..last]) + {xs[last]};
      assert xs[last] !in xs[..last];
    }
  }

  lemma DisjointSize(a: set<string>, b: set<string>)
    requires a !! b
    ensures |a + b| == |a| + |b|
  {
  }

  lemma AllowsAllExactly(b: Books, user: string, ips: seq<string>, max: int, now: int)
    ensures AllowsAll(b, user, Distinct(ips), max, now) <==> max <= 0 || |HeldIPs(b, user, now) + SetOf(ips)| <= max
  {
    var targets := Distinct(ips);
    var others := set g <- b.grants | g.HeldBy(user, now) && g.ip !in targets :: g.ip;
    assert HeldIPs(b, user, now) + SetOf(ips) == others + SetOf(targets);
    DistinctSize(targets);
    DisjointSize(others, SetOf(targets));
  }

  /** A link is refused exactly when its token is unknown, used or expired, or else when the limit has no room. */
  lemma ConsumeRefusedExactly(b: Books, h: string, ips: seq<string>, max: int, now: int)
    ensures Check(b, Consume(h, ips, max), now) ==
            if ips == [] || h !in b.tokens || b.tokens[h].usedAt.Some? || b.tokens[h].expiresAt < now then Some(TokenInvalid)
            else if 0 < max < |HeldIPs(b, b.tokens[h].openId, now) + SetOf(ips)| then Some(LimitReached)
            else None
  {
    if h in b.tokens {
      AllowsAllExactly(b, b.tokens[h].openId, ips, max, now);
    }
  }

  lemma AddRefusedExactly(b: Books, g: Grant, max: int, now: int)
    ensures Check(b, AddGrant(g, max), now) ==
            if 0 < max < |HeldIPs(b, g.openId, now) + {g.ip}| then Some(LimitReached) else None
  {
    AllowsOneExactly(b, g.openId, g.ip, max, now);
  }

  /** An admin can change a grant exactly when it is there, not revoked and not run out. */
  lemma ChangeRefusedExactly(b: Books, actor: string, id: nat, expireAt: int, now: int)
    ensures Check(b, ExtendAdmin(actor, id, expireAt), now) == Check(b, RevokeAdmin(actor, id), now) ==
            if id >= |b.grants| then Some(NotFound)
            else if b.grants[id].revokedAt.Some? || b.grants[id].expireAt <= now then Some(Inactive)
            else None
  {
  }

  /** What a consumed link leaves, and why it was refused otherwise. */
  lemma ConsumedIs(b: Books, b': Books, h: string, ips: seq<string>, max: int, now: int, db: bool, fault: Option<Fault>)
    requires Committed(b, b', Consume(h, ips, max), now, db || ips == [], fault)
    ensures db && ips != [] ==>
              fault == if h !in b.tokens || b.tokens[h].usedAt.Some? || b.tokens[h].expiresAt < now then Some(TokenInvalid)
                       else if 0 < max < |HeldIPs(b, b.tokens[h].openId, now) + SetOf(ips)| then Some(LimitReached)
                       else None
    ensures fault.Some? ==> b' == b
    ensures fault.None? ==>
              && db && h in b.tokens && b.tokens[h].usedAt.None? && now <= b.tokens[h].expiresAt
              && var rows := LinkGrants(b.tokens[h], Distinct(ips), now);
                 && b' == Books(b.grants + rows, b.managed + SetOf(ips), b.tokens[h := b.tokens[h].(usedAt := Some(now))], b.audits)
                 && AreLinkRows(rows, b.tokens[h], SetOf(ips), now)
  {
    ConsumeRefusedExactly(b, h, ips, max, now);
    if fault.None? {
      LinkRowsAre(b.tokens[h], ips, now);
    }
  }

  // ---------- The store ----------

  /** `db` says whether the database carried the call out; a failing call is rolled back. */
  class Store {
    var grants: seq<Grant>
    var managed: set<string>
    var tokens: map<string, Token>
    var audits: seq<Audit>

    function State(): Books
      reads this
    {
      Books(grants, managed, tokens, audits)
    }

    constructor ()
      ensures State() == Books([], {}, map[], [])
    {
      grants, managed, tokens, audits := [], {}, map[], [];
    }

    method AddGrantLimited(g: Grant, max: int, now: int, db: bool) returns (fault: Option<Fault>)
      modifies this
      ensures Committed(old(State()), State(), AddGrant(g, max), now, db, fault)
      ensures fault == Some(LimitReached) <==> db && 0 < max < |HeldIPs(old(State()), g.openId, now) + {g.ip}|
      ensures fault.Some? ==> State() == old(State())
      ensures fault.None? ==>
                && grants == old(grants) + [g.(revokedAt := None)] && managed == old(managed) + {g.ip}
                && tokens == old(tokens) && audits == old(audits)
    {
      AddRefusedExactly(State(), g, max, now);
      if !db {
        return Some(DbError);
      }
      if max > 0 {
        var count := |set row <- grants | row.HeldBy(g.openId, now) && row.ip != g.ip :: row.ip|;
        if count >= max {
          return Some(LimitReached);
        }
      }
      grants := grants + [g.(revokedAt := None)];
      managed := managed + {g.ip};
      return None;
    }

    method CreateToken(h: string, t: Token, db: bool, ghost now: int) returns (fault: Option<Fault>)
      modifies this`tokens
      ensures Committed(old(State()), State(), Tx.CreateToken(h, t), now, db, fault)
      ensures fault == Some(Duplicate) <==> db && exists k <- old(tokens) :: old(tokens)[k].messageId == t.messageId
      ensures fault.Some? ==> State() == old(State())
      ensures fault.None? ==> h !in old(tokens) && tokens == old(tokens)[h := t.(usedAt := None)]
    {
      if !db {
        return Some(DbError);
      }
      if exists k <- tokens :: tokens[k].messageId == t.messageId {
        return Some(Duplicate);
      }
      if h in tokens {
        return Some(KeyKnown);
      }
      tokens := tokens[h := t.(usedAt := None)];
      return None;
    }

    /** Consumes a token and records one grant for each distinct address. */
    method ConsumeTokenIPs(h: string, ips: seq<string>, max: int, now: int, db: bool)
      returns (fault: Option<Fault>, recorded: seq<Grant>)
      modifies this
      ensures Committed(old(State()), State(), Consume(h, ips, max), now, db || ips == [], fault)
      ensures fault.None? ==> h in old(tokens) && recorded == LinkGrants(old(tokens)[h], Distinct(ips), now)
      ensures fault.None? ==> old(tokens)[h].usedAt.None? && now <= old(tokens)[h].expiresAt
      ensures db && ips != [] ==>
                (fault == Some(TokenInvalid) <==>
                 h !in old(tokens) || old(tokens)[h].usedAt.Some? || old(tokens)[h].expiresAt < now)
      ensures db && ips != [] && fault != Some(TokenInvalid) ==>
                (fault == Some(LimitReached) <==> 0 < max < |HeldIPs(old(State()), old(tokens)[h].openId, now) + SetOf(ips)|)
      ensures fault.Some? ==> State() == old(State())
      ensures fault.None? ==>
                && tokens == old(tokens)[h := old(tokens)[h].(usedAt := Some(now))] && audits == old(audits)
                && grants == old(grants) + recorded && managed == old(managed) + SetOf(ips)
                && AreLinkRows(recorded, old(tokens)[h], SetOf(ips), now)
    {
      ghost var before := State();
      fault, recorded := RunConsume(h, ips, max, now, db);
      ConsumedIs(before, State(), h, ips, max, now, db, fault);
    }

    /** Its statements. */
    method RunConsume(h: string, ips: seq<string>, max: int, now: int, db: bool)
      returns (fault: Option<Fault>, recorded: seq<Grant>)
      modifies this
      ensures Committed(old(State()), State(), Consume(h, ips, max), now, db || ips == [], fault)
      ensures fault.None? ==> h in old(tokens) && recorded == LinkGrants(old(tokens)[h], Distinct(ips), now)
    {
      var targets := Targets(ips);
      if |targets| == 0 {
        return Some(TokenInvalid), [];
      }
      if !db {
        return Some(DbError), [];
      }
      if h !in tokens || !tokens[h].Usable(now) {
        return Some(TokenInvalid), [];
      }
      var t := tokens[h];
      var room := HasRoom(t.openId, targets, max, now);
      if !room {
        return Some(LimitReached), [];
      }
      tokens := tokens[h := t.(usedAt := Some(now))];
      recorded := InsertLinks(t, targets, now);
      return None, recorded;
    }

    /** The limit test of the transaction. */
    method HasRoom(user: string, targets: seq<string>, max: int, now: int) returns (room: bool)
      ensures room <==> AllowsAll(State(), user, targets, max, now)
    {
      if max <= 0 {
        return true;
      }
      var others := |set g <- grants | g.HeldBy(user, now) && g.ip !in targets :: g.ip|;
      return others + |targets| <= max;
    }

    /** The insert loop of the transaction. */
    method InsertLinks(t: Token, targets: seq<string>, now: int) returns (recorded: seq<Grant>)
      modifies this`grants, this`managed
      ensures recorded == LinkGrants(t, targets, now)
      ensures grants == old(grants) + recorded
      ensures managed == old(managed) + set ip <- targets
    {
      recorded := [];
      for k := 0 to |targets|
        invariant recorded == LinkGrants(t, targets, now)[..k]
        invariant grants == old(grants) + recorded
        invariant managed == old(managed) + set ip <- targets[..k]
      {
        var g := Grant(t.openId, t.name, targets[k], FeishuLink, now, now + t.ttl, None);
        grants := grants + [g];
        managed := managed + {g.ip};
        recorded := recorded + [g];
      }
      assert targets[..|targets|] == targets;
    }

    static method Targets(ips: seq<string>) returns (targets: seq<string>)
      ensures targets == Distinct(ips)
    {
      var seen: set<string> := {};
      targets := [];
      for i := 0 to |ips|
        invariant targets == Distinct(ips[..i])
        invariant forall ip :: ip in seen <==> ip in targets
      {
        assert ips[..i + 1][..i] == ips[..i];
        if ips[i] !in seen {
          seen := seen + {ips[i]};
          targets := targets + [ips[i]];
        }
      }
      assert ips[..|ips|] == ips;
    }

    method RevokeUserIP(user: string, ip: string, now: int, db: bool) returns (fault: Option<Fault>, n: nat)
      modifies this`grants
      ensures Committed(old(State()), State(), RevokeUser(user, ip), now, db, fault)
      ensures !db ==> fault == Some(DbError) && grants == old(grants)
      ensures db ==> fault.None? && |grants| == |old(grants)|
      ensures db ==> forall i :: 0 <= i < |grants| ==> grants[i] == IfHit(old(grants)[i], user, ip, now)
      ensures fault.None? ==> (n > 0 <==> exists g <- old(grants) :: Hits(g, user, ip, now))
    {
      if !db {
        return Some(DbError), 0;
      }
      n := 0;
      ghost var before := grants;
      for i := 0 to |grants|
        invariant |grants| == |before| && grants[i..] == before[i..]
        invariant grants[..i] == RevokedBy(before, user, ip, now)[..i]
        invariant n > 0 <==> exists j :: 0 <= j < i && Hits(before[j], user, ip, now)
      {
        assert grants[i] == grants[i..][0] && before[i] == before[i..][0];
        if grants[i].openId == user && grants[i].ip == ip && grants[i].revokedAt.None? && grants[i].expireAt > now {
          assert Hits(before[i], user, ip, now);
          grants := grants[i := grants[i].(revokedAt := Some(now))];
          n := n + 1;
        }
        assert grants[i + 1..] == before[i + 1..] by {
          assert before[i + 1..] == before[i..][1..];
        }
      }
      assert grants[..|before|] == grants && RevokedBy(before, user, ip, now)[..|before|] == RevokedBy(before, user, ip, now);
      HitsAreRows(before, user, ip, now);
      return None, n;
    }

    method CreateAdminGrant(actor: string, g: Grant, now: int, db: bool)
      returns (fault: Option<Fault>, auditId: nat)
      modifies this
      ensures Committed(old(State()), State(), CreateAdmin(actor, g), now, db, fault)
      ensures auditId == |old(audits)|
      ensures fault.Some? <==> !db
      ensures fault.Some? ==> State() == old(State())
      ensures fault.None? ==>
                && grants == old(grants) + [g.(revokedAt := None)] && managed == old(managed) + {g.ip} && tokens == old(tokens)
                && audits == old(audits) + [Audit(actor, Added, |old(grants)|, g.openId, g.name, g.ip, now, g.expireAt, Recorded)]
    {
      auditId := |audits|;
      if !db {
        return Some(DbError), auditId;
      }
      var id := |grants|;
      grants := grants + [g.(revokedAt := None)];
      managed := managed + {g.ip};
      audits := audits + [AuditOf(actor, Added, id, g, now)];
      return None, auditId;
    }

    method ExtendAdminGrant(actor: string, id: nat, expireAt: int, now: int, db: bool)
      returns (fault: Option<Fault>, auditId: nat)
      modifies this
      ensures Committed(old(State()), State(), ExtendAdmin(actor, id, expireAt), now, db, fault)
      ensures auditId == |old(audits)|
      ensures fault.Some? ==> State() == old(State())
      ensures fault.None? ==> id < |old(grants)|
      ensures fault.None? ==>
                var g := old(grants)[id];
                && g.revokedAt.None? && now < g.expireAt
                && grants == old(grants)[id := g.(expireAt := expireAt)] && managed == old(managed) + {g.ip} && tokens == old(tokens)
                && audits == old(audits) + [Audit(actor, Extended, id, g.openId, g.name, g.ip, now, expireAt, Recorded)]
    {
      auditId := |audits|;
      if !db {
        return Some(DbError), auditId;
      }
      if id >= |grants| {
        return Some(NotFound), auditId;
      }
      var g := grants[id];
      if g.revokedAt.Some? || g.expireAt <= now {
        return Some(Inactive), auditId;
      }
      g := g.(expireAt := expireAt);
      grants := grants[id := g];
      managed := managed + {g.ip};
      audits := audits + [AuditOf(actor, Extended, id, g, now)];
      return None, auditId;
    }

    method RevokeAdminGrant(actor: string, id: nat, now: int, db: bool)
      returns (fault: Option<Fault>, auditId: nat)
      modifies this
      ensures Committed(old(State()), State(), RevokeAdmin(actor, id), now, db, fault)
      ensures auditId == |old(audits)|
      ensures fault.Some? ==> State() == old(State())
      ensures fault.None? ==> id < |old(grants)|
      ensures fault.None? ==>
                var g := old(grants)[id];
                && g.revokedAt.None? && now < g.expireAt
                && grants == old(grants)[id := g.(revokedAt := Some(now))] && managed == old(managed) && tokens == old(tokens)
                && audits == old(audits) + [Audit(actor, Revoked, id, g.openId, g.name, g.ip, now, g.expireAt, Recorded)]
    {
      auditId := |audits|;
      if !db {
        return Some(DbError), auditId;
      }
      if id >= |grants| {
        return Some(NotFound), auditId;
      }
      var g := grants[id];
      if g.revokedAt.Some? || g.expireAt <= now {
        return Some(Inactive), auditId;
      }
      g := g.(revokedAt := Some(now));
      grants := grants[id := g];
      audits := audits + [AuditOf(actor, Revoked, id, g, now)];
      return None, auditId;
    }

    method SetAdminAuditResult(auditId: nat, result: SyncResult, db: bool, ghost now: int)
      modifies this`audits
      ensures State() == if db then Apply(old(State()), SetResult(auditId, result), now) else old(State())
      ensures audits == if db && auditId < |old(audits)| then old(audits)[auditId := old(audits)[auditId].(result := result)] else old(audits)
    {
      if db && auditId < |audits| {
        audits := audits[auditId := audits[auditId].(result := result)];
      }
    }

    method ForgetManagedIP(ip: string, db: bool, ghost now: int) returns (fault: Option<Fault>)
      modifies this`managed
      ensures Committed(old(State()), State(), Forget(ip), now, db, fault)
      ensures managed == if db then old(managed) - {ip} else old(managed)
    {
      if !db {
        return Some(DbError);
      }
      managed := managed - {ip};
      return None;
    }
  }
}
