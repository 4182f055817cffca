/**
 The one-time link server: confirming a link, issuing links, and finding the client's
 address behind trusted proxies.
 */
module Authorize {
  import opened Options
  import opened Ledger
  import opened Frps
  import opened Projection
  import Duration
  import Names

  // ---------- Confirming a link ----------

  datatype Answer = NoAddress | Gone | Conflict | StoreError | NotApplied | Applied(grants: seq<Grant>)

  /** The frps calls for recorded grants, in order, up to the first that fails. */
  function AddEach(t: Table, gs: seq<Grant>, operator: string, now: int, calls: string -> Call): (Table, bool)
    decreases |gs|
  {
    if gs == [] then (t, true)
    else if gs[0].expireAt > now && calls(gs[0].ip).Done? then
      AddEach(AddFirst(t, gs[0], operator, now, calls), gs[1..], operator, now, calls)
    else (AddFirst(t, gs[0], operator, now, calls), false)
  }

  function AddFirst(t: Table, g: Grant, operator: string, now: int, calls: string -> Call): Table {
    AfterAdd(t, g.ip, g.expireAt - now, operator, now, calls(g.ip))
  }

  lemma AddEachFront(t: Table, gs: seq<Grant>, k: nat, operator: string, now: int, calls: string -> Call)
    requires k < |gs|
    ensures AddEach(t, gs[k..], operator, now, calls) ==
            if gs[k].expireAt > now && calls(gs[k].ip).Done? then
              AddEach(AddFirst(t, gs[k], operator, now, calls), gs[k + 1..], operator, now, calls)
            else (AddFirst(t, gs[k], operator, now, calls), false)
  {
    assert gs[k..][0] == gs[k] && gs[k..][1..] == gs[k + 1..];
  }

  function TargetsOf(ip: string, v4: Option<string>): seq<string> {
    if v4.Some? && v4.value != ip then [ip, v4.value] else [ip]
  }

  function Posted(w: World, max: int, ip: string, v4: Option<string>, hash: string, db: bool, calls: string -> Call): (World, Answer) {
    var tx := Consume(hash, TargetsOf(ip, v4), max);
    if !db then (w, StoreError)
    else match Check(w.books, tx, w.now)
      case Some(TokenInvalid) => (w, Gone)
      case Some(_) => (w, Conflict)
      case None =>
        var t := w.books.tokens[hash];
        var gs := LinkGrants(t, Distinct(TargetsOf(ip, v4)), w.now);
        var (table, ok) := AddEach(w.table, gs, Names.DisplayName(t.name, t.openId), w.now, calls);
        (World(w.now, Effect(w.books, tx, w.now), table), if ok then Applied(gs) else NotApplied)
  }

  class Server {
    const store: Store
    const client: Client
    const maxActive: int

    constructor (store: Store, client: Client, maxActive: int)
      ensures this.store == store && this.client == client && this.maxActive == maxActive
    {
      this.store, this.client, this.maxActive := store, client, maxActive;
    }

    function View(now: int): World
      reads store, client
    {
      World(now, store.State(), client.table)
    }

    /** `ip` is the address found by `ClientIP`, `hash` the decoded token. */
    method Post(now: int, ip: Option<string>, v4: Option<string>, hash: Option<string>, db: bool, calls: string -> Call)
      returns (answer: Answer)
      modifies store, client`table
      ensures ip.None? ==> answer == NoAddress && View(now) == old(View(now))
      ensures ip.Some? && hash.None? ==> answer == Gone && View(now) == old(View(now))
      ensures ip.Some? && hash.Some? ==>
                (View(now), answer) == Posted(old(View(now)), maxActive, ip.value, v4, hash.value, db, calls)
    {
      if ip.None? {
        return NoAddress;
      }
      if hash.None? {
        return Gone;
      }
      var ips := [ip.value];
      if v4.Some? && v4.value != ip.value {
        ips := ips + [v4.value];
      }
      assert ips == TargetsOf(ip.value, v4);
      var fault, gs := store.ConsumeTokenIPs(hash.value, ips, maxActive, now, db);
      if fault == Some(TokenInvalid) {
        return Gone;
      }
      if fault == Some(LimitReached) {
        return Conflict;
      }
      if fault.Some? {
        return StoreError;
      }
      var ok := AddGrants(now, gs, Names.DisplayName(gs[0].name, gs[0].openId), calls);
      return if ok then Applied(gs) else NotApplied;
    }

    method AddGrants(now: int, gs: seq<Grant>, operator: string, calls: string -> Call) returns (ok: bool)
      modifies client`table
      ensures (client.table, ok) == AddEach(old(client.table), gs, operator, now, calls)
    {
      for k := 0 to |gs|
        invariant AddEach(old(client.table), gs, operator, now, calls)
               == AddEach(client.table, gs[k..], operator, now, calls)
      {
        AddEachFront(client.table, gs, k, operator, now, calls);
        var done := AddGrant(now, gs[k], operator, calls);
        if !done {
          return false;
        }
      }
      return true;
    }

    method AddGrant(now: int, g: Grant, operator: string, calls: string -> Call) returns (ok: bool)
      modifies client`table
      ensures client.table == AddFirst(old(client.table), g, operator, now, calls)
      ensures ok <==> g.expireAt > now && calls(g.ip).Done?
    {
      ok := client.Add(g.ip, g.expireAt - now, operator, now, calls(g.ip));
    }

    // ---------- Issuing a link ----------

    /**
     Issues a token under the message's identifier, or under one of three derived ones when
     it is taken. `keys` are the random token hashes of the attempts.
     */
    method NewLink(t: Token, keys: seq<string>, db: bool, now: int) returns (link: Option<string>)
      requires |keys| == 4
      modifies store`tokens
      ensures var k := FirstFree(old(store.tokens), t.messageId, 0);
              if db && k < 4 && keys[k] !in old(store.tokens) then
                && link == Some(keys[k])
                && store.tokens == old(store.tokens)[keys[k] := t.(messageId := IdOf(t.messageId, k), usedAt := None)]
              else link.None? && store.tokens == old(store.tokens)
    {
      link := None;
      for k := 0 to 4
        invariant store.tokens == old(store.tokens) && (k > 0 ==> db)
        invariant FirstFree(old(store.tokens), t.messageId, 0) == FirstFree(old(store.tokens), t.messageId, k)
      {
        var fault := store.CreateToken(keys[k], t.(messageId := IdOf(t.messageId, k)), db, now);
        if fault.None? {
          return Some(keys[k]);
        }
        if k == 3 || fault != Some(Duplicate) {
          return None;
        }
      }
    }
  }

  /** The identifier of an attempt: the message's own, then with a number after it. */
  function IdOf(messageId: string, attempt: nat): string {
    if attempt == 0 then messageId else messageId + "#" + Duration.Digits(attempt)
  }

  predicate Taken(tokens: map<string, Token>, id: string) {
    exists h <- tokens :: tokens[h].messageId == id
  }

  /** The first attempt from k on whose identifier is free; 4 when there is none. */
  function FirstFree(tokens: map<string, Token>, messageId: string, k: nat): (j: nat)
    requires k <= 4
    ensures k <= j <= 4
    ensures j < 4 ==> !Taken(tokens, IdOf(messageId, j))
    ensures forall i :: k <= i < j ==> Taken(tokens, IdOf(messageId, i))
    decreases 4 - k
  {
    if k == 4 || !Taken(tokens, IdOf(messageId, k)) then k else FirstFree(tokens, messageId, k + 1)
  }

  // ---------- The address of the client ----------

  datatype Found = Address(ip: string) | NotPublic | NobodyUntrusted | Unreadable

  /**
   The header's addresses from the right, `None` where a part does not parse: the first
   one that is no trusted proxy decides.
   */
  function LastUntrusted(parts: seq<Option<string>>, trusted: string -> bool, public: string -> bool): Found {
    if parts == [] then NobodyUntrusted
    else
      var a := parts[|parts| - 1];
      if a.None? || trusted(a.value) then LastUntrusted(parts[..|parts| - 1], trusted, public)
      else if public(a.value) then Address(a.value) else NotPublic
  }

  method ClientIP(peer: Option<string>, parts: seq<Option<string>>, trusted: string -> bool, public: string -> bool)
    returns (r: Found)
    ensures r == match peer
                 case None => Unreadable
                 case Some(p) =>
                   if trusted(p) then LastUntrusted(parts, trusted, public)
                   else if public(p) then Address(p) else NotPublic
    ensures r == NobodyUntrusted <==> peer.Some? && trusted(peer.value) && forall a <- parts :: a.None? || trusted(a.value)
    ensures peer.Some? && trusted(peer.value) ==> forall k: nat :: Decides(parts, k, trusted) ==>
              r == if public(parts[k].value) then Address(parts[k].value) else NotPublic
  {
    PrefixCannotSpoof([], parts, trusted, public);
    forall k: nat | Decides(parts, k, trusted)
      ensures LastUntrusted(parts, trusted, public) == if public(parts[k].value) then Address(parts[k].value) else NotPublic
    {
      LastUntrustedDecides(parts, k, trusted, public);
    }
    if peer.None? {
      return Unreadable;
    }
    if !trusted(peer.value) {
      return if public(peer.value) then Address(peer.value) else NotPublic;
    }
    var i := |parts| - 1;
    assert parts[..i + 1] == parts;
    while i >= 0
      invariant -1 <= i < |parts|
      invariant LastUntrusted(parts, trusted, public) == LastUntrusted(parts[..i + 1], trusted, public)
    {
      assert parts[..i + 1][..i] == parts[..i];
      if parts[i].Some? && !trusted(parts[i].value) {
        return if public(parts[i].value) then Address(parts[i].value) else NotPublic;
      }
      i := i - 1;
    }
    return NobodyUntrusted;
  }

  /** What a client writes in front of the header cannot change an answer, and no trusted or private address is given out. */
  lemma {:induction false} PrefixCannotSpoof(front: seq<Option<string>>, parts: seq<Option<string>>,
                                             trusted: string -> bool, public: string -> bool)
    ensures var r := LastUntrusted(parts, trusted, public);
            && (r != NobodyUntrusted ==> LastUntrusted(front + parts, trusted, public) == r)
            && (r.Address? ==> Some(r.ip) in parts && !trusted(r.ip) && public(r.ip))
    ensures LastUntrusted(parts, trusted, public) == NobodyUntrusted <==>
            forall a <- parts :: a.None? || trusted(a.value)
  {
    if parts != [] {
      var last := |parts| - 1;
      assert parts == parts[..last] + [parts[last]];
      assert (front + parts)[..|front + parts| - 1] == front + parts[..last];
      PrefixCannotSpoof(front, parts[..last], trusted, public);
    }
  }

  // ---------- What the answers say ----------

  /** The addresses a confirmation is about: the client's own and the reported one. */
  function Wanted(ip: string, v4: Option<string>): set<string> {
    {ip} + if v4.Some? then {v4.value} else {}
  }

  lemma WantedAreTargets(ip: string, v4: Option<string>)
    ensures SetOf(TargetsOf(ip, v4)) == Wanted(ip, v4)
    ensures TargetsOf(ip, v4)[0] == ip && |TargetsOf(ip, v4)| == |Wanted(ip, v4)|
  {
  }

  /** A link that is unknown, used or over. */
  predicate IsDead(b: Books, hash: string, now: int) {
    hash !in b.tokens || b.tokens[hash].usedAt.Some? || b.tokens[hash].expiresAt < now
  }

  /** Each refusal, exactly when it is given; it changes nothing. */
  lemma PostRefusesExactly(w: World, max: int, ip: string, v4: Option<string>, hash: string, db: bool, calls: string -> Call)
    ensures var (w', answer) := Posted(w, max, ip, v4, hash, db, calls);
            && (answer == StoreError <==> !db)
            && (answer == Gone <==> db && IsDead(w.books, hash, w.now))
            && (answer == Conflict <==>
                  && db && !IsDead(w.books, hash, w.now)
                  && 0 < max < |HeldIPs(w.books, w.books.tokens[hash].openId, w.now) + Wanted(ip, v4)|)
            && (answer == StoreError || answer == Gone || answer == Conflict ==> w' == w)
            && (answer.Applied? || answer.NotApplied? <==> answer != StoreError && answer != Gone && answer != Conflict)
  {
    ConsumeRefusedExactly(w.books, hash, TargetsOf(ip, v4), max, w.now);
    WantedAreTargets(ip, v4);
  }

  /** A confirmation that is accepted uses the link up and records one grant for each wanted address. */
  lemma PostRecords(w: World, max: int, ip: string, v4: Option<string>, hash: string, calls: string -> Call) returns (gs: seq<Grant>)
    requires Check(w.books, Consume(hash, TargetsOf(ip, v4), max), w.now).None?
    ensures hash in w.books.tokens && AreLinkRows(gs, w.books.tokens[hash], Wanted(ip, v4), w.now)
    ensures var w' := Posted(w, max, ip, v4, hash, true, calls).0;
            && w'.now == w.now
            && w'.books.tokens == w.books.tokens[hash := w.books.tokens[hash].(usedAt := Some(w.now))]
            && w'.books.managed == w.books.managed + Wanted(ip, v4)
            && w'.books.grants == w.books.grants + gs
  {
    WantedAreTargets(ip, v4);
    LinkRowsAre(w.books.tokens[hash], TargetsOf(ip, v4), w.now);
    gs := LinkGrants(w.books.tokens[hash], Distinct(TargetsOf(ip, v4)), w.now);
  }

  predicate Succeeds(g: Grant, now: int, calls: string -> Call) { g.expireAt > now && calls(g.ip).Done? }

  /** The calls stop at the first that fails; what comes after it is not touched. */
  lemma {:induction false} AddEachStops(t: Table, gs: seq<Grant>, operator: string, now: int, calls: string -> Call) returns (k: nat)
    ensures k <= |gs| && (forall i :: 0 <= i < k ==> Succeeds(gs[i], now, calls)) && (k < |gs| ==> !Succeeds(gs[k], now, calls))
    ensures AddEach(t, gs, operator, now, calls).1 <==> k == |gs|
    ensures k == |gs| <==> forall i :: 0 <= i < |gs| ==> Succeeds(gs[i], now, calls)
    ensures var t' := AddEach(t, gs, operator, now, calls).0;
            forall ip :: (forall i :: 0 <= i <= k && i < |gs| ==> gs[i].ip != ip) ==> SameAt(t, t', ip)
    decreases |gs|
  {
    if gs == [] {
      k := 0;
    } else if !Succeeds(gs[0], now, calls) {
      k := 0;
    } else {
      var next := AddFirst(t, gs[0], operator, now, calls);
      var rest := AddEachStops(next, gs[1..], operator, now, calls);
      k := rest + 1;
      var t' := AddEach(t, gs, operator, now, calls).0;
      assert forall i :: 0 <= i < |gs| - 1 ==> gs[1..][i] == gs[i + 1];
      forall i | 0 <= i < k
        ensures Succeeds(gs[i], now, calls)
      {
        assert i > 0 ==> gs[i] == gs[1..][i - 1];
      }
      forall ip | forall i :: 0 <= i <= k && i < |gs| ==> gs[i].ip != ip
        ensures SameAt(t, t', ip)
      {
        assert gs[0].ip != ip;
        assert SameAt(t, next, ip);
        assert forall i :: 0 <= i <= rest && i < |gs[1..]| ==> gs[1..][i].ip != ip by {
          forall i | 0 <= i <= rest && i < |gs[1..]|
            ensures gs[1..][i].ip != ip
          {
            assert gs[1..][i] == gs[i + 1];
          }
        }
        assert SameAt(next, t', ip);
      }
    }
  }

  /** The last part of the header that parses and is no trusted proxy. */
  ghost predicate Decides(parts: seq<Option<string>>, k: nat, trusted: string -> bool) {
    && k < |parts| && parts[k].Some? && !trusted(parts[k].value)
    && forall j :: k < j < |parts| ==> parts[j].None? || trusted(parts[j].value)
  }

  /** That part decides: its address if it is public, and a refusal if it is not. */
  lemma {:induction false} LastUntrustedDecides(parts: seq<Option<string>>, k: nat, trusted: string -> bool, public: string -> bool)
    requires Decides(parts, k, trusted)
    ensures LastUntrusted(parts, trusted, public) == if public(parts[k].value) then Address(parts[k].value) else NotPublic
  {
    if k < |parts| - 1 {
      LastUntrustedDecides(parts[..|parts| - 1], k, trusted, public);
    }
  }

  lemma IdsAre(messageId: string)
    ensures IdOf(messageId, 0) == messageId && IdOf(messageId, 1) == messageId + "#1"
    ensures IdOf(messageId, 2) == messageId + "#2" && IdOf(messageId, 3) == messageId + "#3"
  {
    assert Duration.Digits(1) == "1" && Duration.Digits(2) == "2" && Duration.Digits(3) == "3";
  }
}
