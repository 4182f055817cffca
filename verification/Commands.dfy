/**
 The chat commands: a ledger transaction, then calls to frps that may fail, under a
 cache of replies that makes redelivered messages harmless.
 */
module Commands {
  import opened Options
  import opened Ledger
  import opened Frps
  import opened Projection
  import Duration
  import Names

  datatype Config = Config(defaultTTL: int, maxTTL: int, maxActive: int)

  /** A lifetime of zero asks for the default one. */
  datatype Command = AddIP(ip: string, ttl: int) | RemoveIP(ip: string) | ListOwn | Help | Malformed

  datatype Request = Request(messageId: string, openId: string, name: string, command: Command)

  datatype Reply =
    | TooLong | LimitHit | RecordFailed | SyncFailed | Granted(ip: string, ttl: int)
    | RevokeFailed | NotYours(ip: string) | AccountFailed | RevokedShared | RevokedLast(ip: string)
    | QueryFailed | Holdings(grants: seq<Grant>) | Usage | ParseFailed

  /** What the calls of one command meet: the first, second and third database call, and frps. */
  datatype Luck = Luck(first: bool, second: bool, third: bool, call: Call)

  function HeldGrants(gs: seq<Grant>, user: string, now: int): seq<Grant> {
    if gs == [] then []
    else
      HeldGrants(gs[..|gs| - 1], user, now)
      + if gs[|gs| - 1].HeldBy(user, now) then [gs[|gs| - 1]] else []
  }

  /** Exactly the live grants of the user are listed. */
  lemma {:induction false} HoldingsAreOwn(gs: seq<Grant>, user: string, now: int)
    ensures forall g :: g in HeldGrants(gs, user, now) <==> g in gs && g.HeldBy(user, now)
  {
    if gs != [] {
      HoldingsAreOwn(gs[..|gs| - 1], user, now);
      assert gs == gs[..|gs| - 1] + [gs[|gs| - 1]];
    }
  }

  // ---------- What a command does ----------

  function Adding(w: World, cfg: Config, r: Request, ip: string, asked: int, luck: Luck): (World, Reply) {
    var ttl := if asked == 0 then cfg.defaultTTL else asked;
    var tx := AddGrant(Grant(r.openId, r.name, ip, FeishuCommand, w.now, w.now + ttl, None), cfg.maxActive);
    if ttl > cfg.maxTTL then (w, TooLong)
    else if !luck.first then (w, RecordFailed)
    else if Check(w.books, tx, w.now).Some? then (w, LimitHit)
    else
      (World(w.now, Effect(w.books, tx, w.now),
             AfterAdd(w.table, ip, ttl, Names.DisplayName(r.name, r.openId), w.now, luck.call)),
       if ttl > 0 && luck.call.Done? then Granted(ip, ttl) else SyncFailed)
  }

  ghost function Removing(w: World, r: Request, ip: string, luck: Luck): (World, Reply) {
    var tx := RevokeUser(r.openId, ip);
    var books := Effect(w.books, tx, w.now);
    if !luck.first then (w, RevokeFailed)
    else if !(exists g <- w.books.grants :: Hits(g, r.openId, ip, w.now)) then
      (w.(books := books), NotYours(ip))
    else Resynced(w.(books := books), ip, luck)
  }

  /** An address after one of its grants was revoked: refreshed for the holders that remain, or removed. */
  ghost function Resynced(w: World, ip: string, luck: Luck): (World, Reply) {
    if !luck.second then (w, AccountFailed)
    else match EffectiveExpiry(w.books.grants, ip, w.now)
      case Some(x) =>
        if !luck.third then (w, AccountFailed)
        else
          var operator := Names.Label(HolderNames(ActiveGrants(w.books.grants, w.now), ip));
          (w.(table := AfterAdd(w.table, ip, x - w.now, operator, w.now, luck.call)),
           if x > w.now && luck.call.Done? then RevokedShared else SyncFailed)
      case None =>
        (w.(table := AfterRemove(w.table, ip, luck.call)),
         if luck.call.Done? then RevokedLast(ip) else SyncFailed)
  }

  ghost function Handled(w: World, cfg: Config, r: Request, luck: Luck): (World, Reply) {
    match r.command
    case AddIP(ip, ttl) => Adding(w, cfg, r, ip, ttl, luck)
    case RemoveIP(ip) => Removing(w, r, ip, luck)
    case ListOwn => (w, if luck.first then Holdings(HeldGrants(w.books.grants, r.openId, w.now)) else QueryFailed)
    case Help => (w, Usage)
    case Malformed => (w, ParseFailed)
  }

  // ---------- The reply cache ----------

  type Replies = map<string, Reply>

  datatype Served = Served(world: World, replies: Replies)

  /** Whether the cache can be read and written during one request. */
  datatype Cache = Cache(read: bool, write: bool)

  ghost function Executed(s: Served, cfg: Config, r: Request, luck: Luck, cache: Cache): (Served, Reply) {
    if cache.read && r.messageId != "" && r.messageId in s.replies then (s, s.replies[r.messageId])
    else
      var (w, reply) := Handled(s.world, cfg, r, luck);
      (Served(w, if cache.write then Saved(s.replies, r.messageId, reply) else s.replies), reply)
  }

  /** INSERT ... ON CONFLICT DO NOTHING: the first reply of a message stays. */
  function Saved(replies: Replies, id: string, reply: Reply): Replies {
    if id == "" || id in replies then replies else replies[id := reply]
  }

  // ---------- The executor ----------

  class Executor {
    const store: Store
    const client: Client
    const cfg: Config
    var replies: Replies

    constructor (store: Store, client: Client, cfg: Config)
      ensures this.store == store && this.client == client && this.cfg == cfg && replies == map[]
    {
      this.store, this.client, this.cfg, replies := store, client, cfg, map[];
    }

    function View(now: int): World
      reads store, client
    {
      World(now, store.State(), client.table)
    }

    method Add(now: int, r: Request, ip: string, asked: int, luck: Luck) returns (reply: Reply)
      modifies store, client`table
      ensures (View(now), reply) == Adding(old(View(now)), cfg, r, ip, asked, luck)
    {
      var ttl := if asked == 0 then cfg.defaultTTL else asked;
      if ttl > cfg.maxTTL {
        return TooLong;
      }
      var g := Grant(r.openId, r.name, ip, FeishuCommand, now, now + ttl, None);
      var fault := store.AddGrantLimited(g, cfg.maxActive, now, luck.first);
      if fault == Some(LimitReached) {
        return LimitHit;
      }
      if fault.Some? {
        return RecordFailed;
      }
      var ok := client.Add(ip, ttl, Names.DisplayName(r.name, r.openId), now, luck.call);
      return if ok then Granted(ip, ttl) else SyncFailed;
    }

    method Remove(now: int, r: Request, ip: string, luck: Luck) returns (reply: Reply)
      modifies store`grants, client`table
      ensures (View(now), reply) == Removing(old(View(now)), r, ip, luck)
    {
      var fault, n := store.RevokeUserIP(r.openId, ip, now, luck.first);
      if fault.Some? {
        return RevokeFailed;
      }
      if n == 0 {
        return NotYours(ip);
      }
      reply := Resync(now, ip, luck);
    }

    method Resync(now: int, ip: string, luck: Luck) returns (reply: Reply)
      modifies client`table
      ensures (View(now), reply) == Resynced(old(View(now)), ip, luck)
    {
      if !luck.second {
        return AccountFailed;
      }
      var x := EffectiveExpiry(store.grants, ip, now);
      if x.Some? {
        if !luck.third {
          return AccountFailed;
        }
        var operator := OwnerLabel(now, ip);
        var ok := client.Add(ip, x.value - now, operator, now, luck.call);
        return if ok then RevokedShared else SyncFailed;
      }
      var removal := client.Remove(ip, luck.call);
      return if removal.Failed? then SyncFailed else RevokedLast(ip);
    }

    /** The holders of an address for frps. */
    method OwnerLabel(now: int, ip: string) returns (text: string)
      ensures text == Names.Label(HolderNames(ActiveGrants(store.grants, now), ip))
    {
      text := Names.JoinNames(HolderNames(ActiveGrants(store.grants, now), ip));
    }

    method Execute(now: int, r: Request, luck: Luck, cache: Cache) returns (reply: Reply)
      modifies store, client`table, this`replies
      ensures (Served(View(now), replies), reply) ==
              Executed(Served(old(View(now)), old(replies)), cfg, r, luck, cache)
    {
      if cache.read && r.messageId != "" && r.messageId in replies {
        return replies[r.messageId];
      }
      match r.command {
        case AddIP(ip, ttl) => reply := Add(now, r, ip, ttl, luck);
        case RemoveIP(ip) => reply := Remove(now, r, ip, luck);
        case ListOwn =>
          reply := if luck.first then Holdings(HeldGrants(store.grants, r.openId, now)) else QueryFailed;
        case Help => reply := Usage;
        case Malformed => reply := ParseFailed;
      }
      if cache.write && r.messageId != "" && r.messageId !in replies {
        replies := replies[r.messageId := reply];
      }
    }
  }

  // ---------- Redelivered messages ----------

  /** A second passes, or a request arrives. */
  datatype Delivery = Tick | Arrive(r: Request, luck: Luck, cache: Cache)

  ghost function Deliver(s: Served, cfg: Config, d: Delivery): Served {
    match d
    case Tick => s.(world := Ticked(s.world))
    case Arrive(r, luck, cache) => Executed(s, cfg, r, luck, cache).0
  }

  ghost function DeliverAll(s: Served, cfg: Config, ds: seq<Delivery>): Served
    decreases |ds|
  {
    if ds == [] then s else DeliverAll(Deliver(s, cfg, ds[0]), cfg, ds[1..])
  }

  /** The delivery can be answered from the cache when the replies in `saved` are there. */
  predicate IsServed(d: Delivery, saved: set<string>) {
    d.Arrive? && d.cache.read && d.r.messageId != "" && d.r.messageId in saved
  }

  /** The message whose reply the delivery leaves in the cache. */
  function Saves(d: Delivery): set<string> {
    if d.Arrive? && d.cache.write && d.r.messageId != "" then {d.r.messageId} else {}
  }

  /** The deliveries without those that are answered from the cache; the clock ticks stay. */
  function WithoutRepeats(ds: seq<Delivery>, saved: set<string>): seq<Delivery> {
    if ds == [] then []
    else if IsServed(ds[0], saved) then WithoutRepeats(ds[1..], saved)
    else [ds[0]] + WithoutRepeats(ds[1..], saved + Saves(ds[0]))
  }

  lemma SavedAfter(s: Served, cfg: Config, d: Delivery)
    ensures IsServed(d, s.replies.Keys) ==> Deliver(s, cfg, d) == s
    ensures !IsServed(d, s.replies.Keys) ==> Deliver(s, cfg, d).replies.Keys == s.replies.Keys + Saves(d)
  {
  }

  /**
   Repeats that are answered from the cache change nothing at all, whatever reads and writes of the
   cache fail elsewhere. With a cache that works these are all later deliveries of a message.
   */
  lemma {:induction false} RepeatsAreHarmless(s: Served, cfg: Config, ds: seq<Delivery>)
    ensures DeliverAll(s, cfg, ds) == DeliverAll(s, cfg, WithoutRepeats(ds, s.replies.Keys))
    decreases |ds|
  {
    if ds != [] {
      var d := ds[0];
      var next := Deliver(s, cfg, d);
      SavedAfter(s, cfg, d);
      RepeatsAreHarmless(next, cfg, ds[1..]);
      var rest := WithoutRepeats(ds[1..], next.replies.Keys);
      if !IsServed(d, s.replies.Keys) {
        assert WithoutRepeats(ds, s.replies.Keys) == [d] + rest;
        assert ([d] + rest)[1..] == rest;
      }
    }
  }

  /** Some delivery of the message could write the cache. */
  ghost predicate SavedBy(ds: seq<Delivery>, id: string) {
    exists d <- ds :: id in Saves(d)
  }

  lemma SavedByFirst(ds: seq<Delivery>, id: string)
    requires ds != []
    ensures SavedBy(ds, id) <==> id in Saves(ds[0]) || SavedBy(ds[1..], id)
  {
    assert ds == [ds[0]] + ds[1..];
  }

  lemma {:induction false} SavedExactly(s: Served, cfg: Config, ds: seq<Delivery>, id: string)
    ensures id in DeliverAll(s, cfg, ds).replies <==> id in s.replies || SavedBy(ds, id)
    decreases |ds|
  {
    if ds != [] {
      SavedAfter(s, cfg, ds[0]);
      SavedExactly(Deliver(s, cfg, ds[0]), cfg, ds[1..], id);
      SavedByFirst(ds, id);
      DeliveredSaved(s, ds[0], id);
    }
  }

  lemma DeliveredSaved(s: Served, d: Delivery, id: string)
    ensures IsServed(d, s.replies.Keys) && id in Saves(d) ==> id in s.replies
  {
  }

  /** What a request changes when it is handled: a grant that is accepted, a revocation that finds something. */
  predicate ChangesLedger(w: World, cfg: Config, r: Request, luck: Luck) {
    match r.command
    case AddIP(ip, asked) =>
      var ttl := if asked == 0 then cfg.defaultTTL else asked;
      ttl <= cfg.maxTTL && luck.first && AllowsOne(w.books, r.openId, ip, cfg.maxActive, w.now)
    case RemoveIP(ip) => luck.first && exists g <- w.books.grants :: Hits(g, r.openId, ip, w.now)
    case _ => false
  }

  lemma RevokingChanges(gs: seq<Grant>, user: string, ip: string, now: int)
    ensures RevokedBy(gs, user, ip, now) == gs <==> !exists g <- gs :: Hits(g, user, ip, now)
  {
    if g :| g in gs && Hits(g, user, ip, now) {
      var j :| 0 <= j < |gs| && gs[j] == g;
      assert RevokedBy(gs, user, ip, now)[j] != gs[j];
    }
  }

  lemma AddingChanges(w: World, cfg: Config, r: Request, ip: string, asked: int, luck: Luck)
    requires r.command == AddIP(ip, asked)
    ensures Adding(w, cfg, r, ip, asked, luck).0 == w <==> !ChangesLedger(w, cfg, r, luck)
  {
    if ChangesLedger(w, cfg, r, luck) {
      assert |Adding(w, cfg, r, ip, asked, luck).0.books.grants| == |w.books.grants| + 1;
    }
  }

  lemma RemovingChanges(w: World, cfg: Config, r: Request, ip: string, luck: Luck)
    requires r.command == RemoveIP(ip)
    ensures Removing(w, r, ip, luck).0 == w <==> !ChangesLedger(w, cfg, r, luck)
  {
    RevokingChanges(w.books.grants, r.openId, ip, w.now);
  }

  lemma HandlingChangesExactly(w: World, cfg: Config, r: Request, luck: Luck)
    ensures Handled(w, cfg, r, luck).0 == w <==> !ChangesLedger(w, cfg, r, luck)
  {
    match r.command
    case AddIP(ip, asked) => AddingChanges(w, cfg, r, ip, asked, luck);
    case RemoveIP(ip) => RemovingChanges(w, cfg, r, ip, luck);
    case _ =>
  }

  /**
   A delivery leaves ledger and frps as they are exactly when it is answered from the cache, whose
   read works and to which an earlier delivery could write, or when handling it changes nothing.
   */
  lemma DeliveryIsHarmlessExactly(s: Served, cfg: Config, ds: seq<Delivery>, r: Request, luck: Luck, cache: Cache)
    ensures var t := DeliverAll(s, cfg, ds);
            Executed(t, cfg, r, luck, cache).0.world == t.world <==>
            || (cache.read && r.messageId != "" && (r.messageId in s.replies || SavedBy(ds, r.messageId)))
            || !ChangesLedger(t.world, cfg, r, luck)
  {
    var t := DeliverAll(s, cfg, ds);
    SavedExactly(s, cfg, ds, r.messageId);
    HandlingChangesExactly(t.world, cfg, r, luck);
  }

  lemma {:induction false} RepliesStay(s: Served, cfg: Config, ds: seq<Delivery>, id: string)
    requires id in s.replies
    ensures var s' := DeliverAll(s, cfg, ds); id in s'.replies && s'.replies[id] == s.replies[id]
    decreases |ds|
  {
    if ds != [] {
      RepliesStay(Deliver(s, cfg, ds[0]), cfg, ds[1..], id);
    }
  }

  /** Every repeat that can read the cache is answered with the first reply that was saved, whatever came between. */
  lemma RepeatsGetTheFirstReply(s: Served, cfg: Config, r: Request, luck: Luck, cache: Cache, between: seq<Delivery>,
                                again: Request, luck': Luck, cache': Cache)
    requires r.messageId != "" && again.messageId == r.messageId && cache'.read
    requires r.messageId in s.replies || cache.write
    ensures var (first, reply) := Executed(s, cfg, r, luck, cache);
            Executed(DeliverAll(first, cfg, between), cfg, again, luck', cache').1 ==
            if r.messageId in s.replies then s.replies[r.messageId] else reply
  {
    var first := Executed(s, cfg, r, luck, cache).0;
    RepliesStay(first, cfg, between, r.messageId);
  }

  // ---------- What the replies say ----------

  /** Each reply to a request for an address, exactly when it is given, and what it leaves. */
  lemma AddRepliesExactly(w: World, cfg: Config, r: Request, ip: string, asked: int, luck: Luck)
    ensures var (w', reply) := Adding(w, cfg, r, ip, asked, luck);
            var ttl := if asked == 0 then cfg.defaultTTL else asked;
            if ttl > cfg.maxTTL then reply == TooLong && w' == w
            else if !luck.first then reply == RecordFailed && w' == w
            else if 0 < cfg.maxActive < |HeldIPs(w.books, r.openId, w.now) + {ip}| then reply == LimitHit && w' == w
            else
              && reply == (if ttl > 0 && luck.call.Done? then Granted(ip, ttl) else SyncFailed)
              && w'.books.grants == w.books.grants + [Grant(r.openId, r.name, ip, FeishuCommand, w.now, w.now + ttl, None)]
              && w'.books.managed == w.books.managed + {ip}
              && w'.table == if ttl > 0 && !luck.call.Refused? then
                               w.table[ip := Entry(w.now + Duration.Cut(ttl), if r.name != "" then r.name else r.openId, Gateway)]
                             else w.table
  {
    var ttl := if asked == 0 then cfg.defaultTTL else asked;
    AddRefusedExactly(w.books, Grant(r.openId, r.name, ip, FeishuCommand, w.now, w.now + ttl, None), cfg.maxActive, w.now);
  }

  /** A grant of somebody else on the address that is not revoked and has not run out. */
  predicate SharedBy(gs: seq<Grant>, user: string, ip: string, now: int) {
    exists g <- gs :: g.openId != user && g.ip == ip && g.revokedAt.None? && now < g.expireAt
  }

  predicate OwnOn(gs: seq<Grant>, user: string, ip: string, now: int) {
    exists g <- gs :: g.openId == user && g.ip == ip && g.revokedAt.None? && now < g.expireAt
  }

  lemma SharedStaysActive(gs: seq<Grant>, user: string, ip: string, now: int)
    ensures EffectiveExpiry(RevokedBy(gs, user, ip, now), ip, now).Some? <==> SharedBy(gs, user, ip, now)
  {
    var gs' := RevokedBy(gs, user, ip, now);
    ExpiryOfActive(gs', ip, now);
    if SharedBy(gs, user, ip, now) {
      var g :| g in gs && g.openId != user && g.ip == ip && g.revokedAt.None? && now < g.expireAt;
      var i :| 0 <= i < |gs| && gs[i] == g;
      assert gs'[i] == g && gs'[i] in gs';
    }
    if ip in LiveIPs(gs', now) {
      var i :| 0 <= i < |gs'| && gs'[i].Active(now) && gs'[i].ip == ip;
      assert gs'[i] == gs[i] && gs[i] in gs;
    }
  }

  lemma OwnIsHit(gs: seq<Grant>, user: string, ip: string, now: int)
    ensures OwnOn(gs, user, ip, now) <==> exists g <- gs :: Hits(g, user, ip, now)
  {
  }

  /** Each reply to a removal, exactly when it is given. */
  lemma RemoveRepliesExactly(w: World, r: Request, ip: string, luck: Luck)
    ensures Removing(w, r, ip, luck).1 ==
            if !luck.first then RevokeFailed
            else if !OwnOn(w.books.grants, r.openId, ip, w.now) then NotYours(ip)
            else if !luck.second then AccountFailed
            else if SharedBy(w.books.grants, r.openId, ip, w.now) then
              if !luck.third then AccountFailed else if luck.call.Done? then RevokedShared else SyncFailed
            else if luck.call.Done? then RevokedLast(ip) else SyncFailed
  {
    OwnIsHit(w.books.grants, r.openId, ip, w.now);
    SharedStaysActive(w.books.grants, r.openId, ip, w.now);
    ExpiryOfActive(RevokedBy(w.books.grants, r.openId, ip, w.now), ip, w.now);
  }

  function Rows(gs: seq<Grant>, user: string, now: int): set<int> {
    set i | 0 <= i < |gs| && gs[i].openId == user && gs[i].revokedAt.None? && now < gs[i].expireAt
  }

  lemma {:induction false} HoldingsCount(gs: seq<Grant>, user: string, now: int)
    ensures |HeldGrants(gs, user, now)| == |Rows(gs, user, now)|
  {
    if gs != [] {
      var last := |gs| - 1;
      HoldingsCount(gs[..last], user, now);
      if gs[last].HeldBy(user, now) {
        assert Rows(gs, user, now) == Rows(gs[..last], user, now) + {last};
      } else {
        assert Rows(gs, user, now) == Rows(gs[..last], user, now);
      }
    }
  }

  /** A listing answers with the user's own live grants, each row once, and the other commands change nothing. */
  lemma ListRepliesExactly(w: World, cfg: Config, r: Request, luck: Luck)
    requires r.command == ListOwn
    ensures var (w', reply) := Handled(w, cfg, r, luck);
            && w' == w && (!luck.first ==> reply == QueryFailed)
            && (luck.first ==> reply.Holdings? && |reply.grants| == |Rows(w.books.grants, r.openId, w.now)|
                               && forall g :: g in reply.grants <==>
                                    g in w.books.grants && g.openId == r.openId && g.revokedAt.None? && w.now < g.expireAt)
  {
    HoldingsAreOwn(w.books.grants, r.openId, w.now);
    HoldingsCount(w.books.grants, r.openId, w.now);
  }

  lemma HandlingIsByCommand(w: World, cfg: Config, r: Request, luck: Luck)
    ensures match r.command
            case AddIP(ip, asked) => Handled(w, cfg, r, luck) == Adding(w, cfg, r, ip, asked, luck)
            case RemoveIP(ip) => Handled(w, cfg, r, luck) == Removing(w, r, ip, luck)
            case ListOwn => Handled(w, cfg, r, luck).0 == w
            case Help => Handled(w, cfg, r, luck) == (w, Usage)
            case Malformed => Handled(w, cfg, r, luck) == (w, ParseFailed)
  {
  }
}
