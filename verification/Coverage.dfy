/**
 Continuous coverage: passes that come often enough keep every active address on frps
 until exactly its effective expiry, although every lifetime sent is cut down.
 */
module Coverage {
  import opened Options
  import opened Ledger
  import opened Frps
  import opened Projection
  import opened SerialRuns
  import Commands
  import Duration

  /** The longest time from one successful pass to the next. */
  const PERIOD := 3659

  /** Nothing happens but clock ticks and passes, some of which may fail. */
  ghost predicate IsQuiet(cfg: Commands.Config, ws: seq<World>, es: seq<Event>) {
    IsRun(cfg, ws, es) && forall e <- es :: e.Tick? || e.Reconcile?
  }

  /** The second of the last successful pass among the first k events. */
  function LastPass(ws: seq<World>, es: seq<Event>, k: nat): int
    requires |ws| == |es| + 1 && k <= |es|
  {
    if k == 0 then ws[0].now
    else if es[k - 1] == Reconcile(true) then ws[k].now
    else LastPass(ws, es, k - 1)
  }

  ghost predicate IsPrompt(ws: seq<World>, es: seq<Event>, period: int)
    requires |ws| == |es| + 1
  {
    && es != [] && es[0] == Reconcile(true)
    && forall k :: 0 < k <= |es| ==> ws[k].now - LastPass(ws, es, k) <= period
  }

  /** The address is on frps, live and not past its effective expiry m, exactly while m lies ahead. */
  predicate Covered(w: World, ip: string, m: int) {
    if w.now < m then ip in w.table && w.now < w.table[ip].expireAt <= m else ip !in w.table
  }

  /** An entry that ends with the grant or outlives the period after `last`. */
  predicate Lasting(e: Entry, m: int, last: int) {
    e.expireAt <= m && (e.expireAt == m || e.expireAt > last + PERIOD)
  }

  /** What holds of an address whose effective expiry is m, with the last pass at `last`. */
  predicate Tended(w: World, ip: string, m: int, last: int) {
    && last <= w.now
    && if w.now < m then
         ip in w.table && Lasting(w.table[ip], m, last)
       else ip !in w.table
  }

  /** A live expiry stays the effective one until it is reached. */
  lemma ExpiryPersists(gs: seq<Grant>, ip: string, now: int, later: int)
    requires now <= later
    ensures var x := EffectiveExpiry(gs, ip, now);
            EffectiveExpiry(gs, ip, later) == if x.Some? && x.value > later then x else None
  {
    LatestIsMax(ActiveGrants(gs, now), ip);
    LatestIsMax(ActiveGrants(gs, later), ip);
  }

  lemma GoalEntry(gs: seq<Grant>, ip: string, now: int, m: int)
    requires EffectiveExpiry(gs, ip, now) == if now < m then Some(m) else None
    ensures now < m ==> ip in Goal(gs, now) && Lasting(Goal(gs, now)[ip], m, now)
    ensures now >= m ==> ip !in Goal(gs, now)
  {
    ExpiryOfActive(gs, ip, now);
    if now < m {
      Duration.CutBounds(m - now);
    }
  }

  lemma PassTends(w: World, w': World, ok: bool, ip: string, m: int, last: int)
    requires Pass(w, w', ok) && last <= w.now
    requires EffectiveExpiry(w.books.grants, ip, w.now) == if w.now < m then Some(m) else None
    requires if ok then w.now < m || ip !in w.table else Tended(w, ip, m, last)
    ensures Tended(w', ip, m, if ok then w.now else last)
  {
    GoalEntry(w.books.grants, ip, w.now, m);
  }

  lemma TickTends(w: World, ip: string, m: int, last: int)
    requires Tended(w, ip, m, last) && w.now + 1 <= last + PERIOD
    ensures Tended(Ticked(w), ip, m, last)
  {
  }

  lemma {:induction false} QuietKeepsGrants(cfg: Commands.Config, ws: seq<World>, es: seq<Event>, k: nat)
    requires IsQuiet(cfg, ws, es) && k <= |es|
    ensures ws[k].books.grants == ws[0].books.grants && ws[0].now <= ws[k].now
  {
    if k > 0 {
      QuietKeepsGrants(cfg, ws, es, k - 1);
      assert es[k - 1] in es && Next(cfg, ws[k - 1], es[k - 1], ws[k]);
    }
  }

  lemma {:induction false} QuietTends(cfg: Commands.Config, ws: seq<World>, es: seq<Event>, ip: string, k: nat)
    requires IsQuiet(cfg, ws, es) && IsPrompt(ws, es, PERIOD) && 0 < k <= |es|
    requires ip in ActiveIPs(ws[0].books, ws[0].now)
    ensures EffectiveExpiry(ws[0].books.grants, ip, ws[0].now).Some?
    ensures Tended(ws[k], ip, EffectiveExpiry(ws[0].books.grants, ip, ws[0].now).value, LastPass(ws, es, k))
  {
    var gs := ws[0].books.grants;
    ExpiryOfActive(gs, ip, ws[0].now);
    var m := EffectiveExpiry(gs, ip, ws[0].now).value;
    var w, e, w' := ws[k - 1], es[k - 1], ws[k];
    assert e in es && Next(cfg, w, e, w');
    QuietKeepsGrants(cfg, ws, es, k - 1);
    ExpiryPersists(gs, ip, ws[0].now, w.now);
    var last := LastPass(ws, es, k - 1);
    if k > 1 {
      QuietTends(cfg, ws, es, ip, k - 1);
    }
    if e.Tick? {
      TickTends(w, ip, m, last);
    } else {
      PassTends(w, w', e.ok, ip, m, last);
    }
  }

  /**
   While the ledger stays unchanged and passes succeed at least every 3659 seconds, every
   active address is live on frps from the first pass until exactly its effective expiry.
   */
  lemma CoverageIsContinuous(cfg: Commands.Config, ws: seq<World>, es: seq<Event>, ip: string, k: nat)
    requires IsQuiet(cfg, ws, es) && IsPrompt(ws, es, PERIOD) && 0 < k <= |es|
    requires ip in ActiveIPs(ws[0].books, ws[0].now)
    requires Sound(ws[0])
    ensures EffectiveExpiry(ws[0].books.grants, ip, ws[0].now).Some?
    ensures Covered(ws[k], ip, EffectiveExpiry(ws[0].books.grants, ip, ws[0].now).value)
  {
    QuietTends(cfg, ws, es, ip, k);
    SerialRunsStaySound(cfg, ws, es);
    assert ws[k] in ws;
  }

  // ---------- The period is the longest possible ----------

  function TickedTimes(w: World, n: nat): World {
    if n == 0 then w else Ticked(TickedTimes(w, n - 1))
  }

  lemma {:induction false} TicksPrune(w: World, n: nat)
    requires Alive(w.table, w.now)
    ensures var t := TickedTimes(w, n);
            && t.now == w.now + n && t.books == w.books
            && forall ip <- t.table :: ip in w.table && t.table[ip] == w.table[ip] && w.table[ip].expireAt > w.now + n
  {
    if n > 0 {
      TicksPrune(w, n - 1);
    }
  }

  lemma CutOfLongHour()
    ensures Duration.Cut(3661) == 3660
  {
  }

  /** A grant with 3661 seconds to go is uncovered for its last second when the next pass takes 3660. */
  lemma PeriodIsTight(w: World, ip: string)
    requires Sound(w) && EffectiveExpiry(w.books.grants, ip, w.now) == Some(w.now + 3661)
    ensures var w' := TickedTimes(Synced(w, Goal(w.books.grants, w.now)), PERIOD + 1);
            ip in ActiveIPs(w'.books, w'.now) && ip !in w'.table
  {
    var goal := Goal(w.books.grants, w.now);
    ExpiryOfActive(w.books.grants, ip, w.now);
    CutOfLongHour();
    assert goal[ip].expireAt == w.now + 3660;
    GoalIsLive(w.books.grants, w.now);
    TicksPrune(Synced(w, goal), PERIOD + 1);
    ExpiryPersists(w.books.grants, ip, w.now, w.now + 3660);
    ExpiryOfActive(w.books.grants, ip, w.now + 3660);
  }
}
