/**
 Sliding windows over accepted requests and over failed logins. Both keep a list of times
 for each key, compacted in place whenever the key is looked at; the ghost history says
 that nothing that still matters is ever dropped. Times are nanoseconds of a clock that
 does not run backwards.
 */
module Limiter {

  const MINUTE: int := 60_000_000_000

  type Times = map<string, seq<int>>

  function TimesOf(m: Times, key: string): seq<int> {
    if key in m then m[key] else []
  }

  /** The times after `cut`, in order. */
  function Recent(ts: seq<int>, cut: int): seq<int> {
    if ts == [] then []
    else if ts[|ts| - 1] > cut then Recent(ts[..|ts| - 1], cut) + [ts[|ts| - 1]]
    else Recent(ts[..|ts| - 1], cut)
  }

  /** The times in a window of one minute that starts after w. */
  function Within(ts: seq<int>, w: int): seq<int> {
    if ts == [] then []
    else if w < ts[|ts| - 1] <= w + MINUTE then Within(ts[..|ts| - 1], w) + [ts[|ts| - 1]]
    else Within(ts[..|ts| - 1], w)
  }

  predicate UpTo(ts: seq<int>, top: int) {
    forall i :: 0 <= i < |ts| ==> ts[i] <= top
  }

  predicate After(ts: seq<int>, cut: int) {
    forall i :: 0 <= i < |ts| ==> ts[i] > cut
  }

  /** No time is later than the last one. */
  predicate LastIsTop(ts: seq<int>) {
    ts == [] || UpTo(ts, ts[|ts| - 1])
  }

  lemma {:induction false} RecentTwice(ts: seq<int>, cut: int, later: int)
    requires cut <= later
    ensures Recent(Recent(ts, cut), later) == Recent(ts, later)
  {
    if ts != [] {
      var last := |ts| - 1;
      RecentTwice(ts[..last], cut, later);
      RecentSnoc(Recent(ts[..last], cut), ts[last], later);
    }
  }

  lemma RecentSnoc(ts: seq<int>, t: int, cut: int)
    ensures Recent(ts + [t], cut) == if t > cut then Recent(ts, cut) + [t] else Recent(ts, cut)
  {
    assert (ts + [t])[..|ts|] == ts;
  }

  lemma {:induction false} RecentOfOld(ts: seq<int>, cut: int)
    requires UpTo(ts, cut)
    ensures Recent(ts, cut) == []
  {
    if ts != [] {
      RecentOfOld(ts[..|ts| - 1], cut);
    }
  }

  lemma {:induction false} RecentIsAfter(ts: seq<int>, cut: int, top: int)
    requires UpTo(ts, top)
    ensures After(Recent(ts, cut), cut) && UpTo(Recent(ts, cut), top)
  {
    if ts != [] {
      RecentIsAfter(ts[..|ts| - 1], cut, top);
    }
  }

  lemma RecentKeepsLast(ts: seq<int>, cut: int)
    requires LastIsTop(ts)
    ensures LastIsTop(Recent(ts, cut))
  {
    if ts != [] {
      var top := ts[|ts| - 1];
      RecentIsAfter(ts, cut, top);
      if top <= cut {
        RecentOfOld(ts, cut);
      }
    }
  }

  lemma {:induction false} RecentCounts(ts: seq<int>, cut: int)
    ensures |Recent(ts, cut)| == |set i: nat | i < |ts| && ts[i] > cut|
  {
    if ts != [] {
      var front, last := ts[..|ts| - 1], |ts| - 1;
      RecentCounts(front, cut);
      var before := set i: nat | i < |front| && front[i] > cut;
      assert (set i: nat | i < |ts| && ts[i] > cut) == if ts[last] > cut then before + {last} else before;
    }
  }

  lemma {:induction false} WithinCounts(ts: seq<int>, w: int)
    ensures |Within(ts, w)| == InMinute(ts, w)
  {
    if ts != [] {
      WithinCounts(ts[..|ts| - 1], w);
      InMinuteSnoc(ts[..|ts| - 1], ts[|ts| - 1], w);
      assert ts == ts[..|ts| - 1] + [ts[|ts| - 1]];
    }
  }

  lemma InMinuteSnoc(ts: seq<int>, t: int, w: int)
    ensures InMinute(ts + [t], w) == InMinute(ts, w) + if w < t <= w + 60_000_000_000 then 1 else 0
  {
    var before := set i: nat | i < |ts| && w < ts[i] <= w + 60_000_000_000;
    assert (set i: nat | i < |ts + [t]| && w < (ts + [t])[i] <= w + 60_000_000_000)
        == if w < t <= w + 60_000_000_000 then before + {|ts|} else before;
  }

  /** The first of the times after `cut`. */
  ghost predicate IsFirstAfter(ts: seq<int>, k: nat, cut: int) {
    k < |ts| && ts[k] > cut && forall i :: 0 <= i < k ==> ts[i] <= cut
  }

  lemma {:induction false} FirstRecent(ts: seq<int>, cut: int, k: nat)
    requires IsFirstAfter(ts, k, cut)
    ensures Recent(ts, cut) != [] && Recent(ts, cut)[0] == ts[k]
  {
    if k < |ts| - 1 {
      FirstRecent(ts[..|ts| - 1], cut, k);
    } else {
      RecentOfOld(ts[..k], cut);
    }
  }

  lemma {:induction false} WithinIsRecent(ts: seq<int>, w: int, cut: int)
    requires cut <= w
    ensures |Within(ts, w)| <= |Recent(ts, cut)|
  {
    if ts != [] {
      WithinIsRecent(ts[..|ts| - 1], w, cut);
    }
  }

  /** No window of a minute holds more than `limit` of the times. */
  ghost predicate Bounded(ts: seq<int>, limit: nat) {
    forall w :: |Within(ts, w)| <= limit
  }

  /** The number of the times that lie in the minute after w. */
  function InMinute(ts: seq<int>, w: int): nat {
    |set i: nat | i < |ts| && w < ts[i] <= w + 60_000_000_000|
  }

  lemma BoundedCounts(ts: seq<int>, limit: nat)
    ensures Bounded(ts, limit) <==> forall w :: InMinute(ts, w) <= limit
  {
    forall w
      ensures |Within(ts, w)| == InMinute(ts, w)
    {
      WithinCounts(ts, w);
    }
  }

  /** Accepting while fewer than `limit` times lie in the last minute keeps every window within the limit. */
  lemma AcceptKeepsBound(ts: seq<int>, now: int, limit: nat)
    requires Bounded(ts, limit) && |Recent(ts, now - MINUTE)| < limit
    ensures Bounded(ts + [now], limit)
  {
    forall w
      ensures |Within(ts + [now], w)| <= limit
    {
      assert (ts + [now])[..|ts|] == ts;
      assert |Within(ts, w)| <= limit;
      if w < now <= w + MINUTE {
        WithinIsRecent(ts, w, now - MINUTE);
      }
    }
  }

  /** Compaction over the shared backing store: kept times move to the front, the rest is left behind. */
  method Compact(old': seq<int>, cut: int) returns (kept: seq<int>)
    ensures kept == Recent(old', cut)
  {
    var buffer := old';
    var n := 0;
    for i := 0 to |old'|
      invariant n <= i && |buffer| == |old'| && buffer[i..] == old'[i..]
      invariant buffer[..n] == Recent(old'[..i], cut)
    {
      assert old'[..i + 1][..i] == old'[..i];
      assert buffer[i] == buffer[i..][0];
      assert buffer[i + 1..] == old'[i..][1..];
      if buffer[i] > cut {
        ghost var before := buffer;
        buffer := buffer[n := buffer[i]];
        assert buffer[..n + 1] == before[..n] + [old'[i]];
        assert buffer[i + 1..] == before[i + 1..];
        n := n + 1;
      }
    }
    assert old'[..|old'|] == old';
    return buffer[..n];
  }

  /** What was kept and what happened agree on the last span of time and on everything later. */
  ghost predicate Agree(kept: seq<int>, all: seq<int>, clock: int, span: int) {
    LastIsTop(kept) && UpTo(kept, clock) && UpTo(all, clock) && Recent(kept, clock - span) == Recent(all, clock - span)
  }

  lemma AgreeLater(kept: seq<int>, all: seq<int>, clock: int, later: int, span: int)
    requires Agree(kept, all, clock, span) && clock <= later
    ensures Agree(kept, all, later, span)
  {
    RecentTwice(kept, clock - span, later - span);
    RecentTwice(all, clock - span, later - span);
  }

  lemma AgreeCompacted(kept: seq<int>, all: seq<int>, now: int, span: int)
    requires Agree(kept, all, now, span)
    ensures Agree(Recent(kept, now - span), all, now, span)
  {
    RecentTwice(kept, now - span, now - span);
    RecentIsAfter(kept, now - span, now);
    RecentKeepsLast(kept, now - span);
  }

  lemma AgreeWithNow(kept: seq<int>, all: seq<int>, now: int, span: int)
    requires Agree(kept, all, now, span)
    ensures Agree(kept + [now], all + [now], now, span)
  {
    SameRecentWithNow(kept, all, now, now - span);
    UpToSnoc(kept, now);
    UpToSnoc(all, now);
  }

  lemma SameRecentWithNow(kept: seq<int>, all: seq<int>, now: int, cut: int)
    requires Recent(kept, cut) == Recent(all, cut)
    ensures Recent(kept + [now], cut) == Recent(all + [now], cut)
  {
    RecentSnoc(kept, now, cut);
    RecentSnoc(all, now, cut);
  }

  lemma UpToSnoc(ts: seq<int>, now: int)
    requires UpTo(ts, now)
    ensures UpTo(ts + [now], now) && LastIsTop(ts + [now])
  {
  }

  lemma DroppedAgrees(kept: seq<int>, all: seq<int>, now: int, span: int)
    requires Agree(kept, all, now, span)
    requires kept == [] || kept[|kept| - 1] <= now - span
    ensures Agree([], all, now, span)
  {
    RecentOfOld(kept, now - span);
  }

  ghost predicate AllAgree(kept: Times, all: Times, clock: int, span: int) {
    forall k :: Agree(TimesOf(kept, k), TimesOf(all, k), clock, span)
  }

  lemma AllAgreeLater(kept: Times, all: Times, clock: int, later: int, span: int)
    requires AllAgree(kept, all, clock, span) && clock <= later
    ensures AllAgree(kept, all, later, span)
  {
    forall k
      ensures Agree(TimesOf(kept, k), TimesOf(all, k), later, span)
    {
      AgreeLater(TimesOf(kept, k), TimesOf(all, k), clock, later, span);
    }
  }

  /** Changing one key of each map keeps the others. */
  lemma AgreeAfterChange(kept: Times, all: Times, kept': Times, all': Times, key: string, clock: int, span: int)
    requires AllAgree(kept, all, clock, span)
    requires Agree(TimesOf(kept', key), TimesOf(all', key), clock, span)
    requires forall k :: k != key ==> TimesOf(kept', k) == TimesOf(kept, k) && TimesOf(all', k) == TimesOf(all, k)
    ensures AllAgree(kept', all', clock, span)
  {
    forall k
      ensures Agree(TimesOf(kept', k), TimesOf(all', k), clock, span)
    {
      if k != key {
        assert Agree(TimesOf(kept, k), TimesOf(all, k), clock, span);
      }
    }
  }

  // ---------- Requests of one user ----------

  /** The lists with another list for one user, none when it is empty. */
  function Put(m: Times, id: string, ts: seq<int>): Times {
    if ts == [] then m - {id} else m[id := ts]
  }

  lemma RefusalAgrees(kept: Times, all: Times, n: seq<int>, id: string, now: int)
    requires AllAgree(kept, all, now, MINUTE) && Agree(n, TimesOf(all, id), now, MINUTE)
    ensures AllAgree(Put(kept, id, n), all, now, MINUTE)
  {
    AgreeAfterChange(kept, all, Put(kept, id, n), all, id, now, MINUTE);
  }

  /** The compacted list has all that the full history has of the last minute. */
  lemma NothingMissed(kept: Times, all: Times, n: seq<int>, id: string, now: int)
    requires AllAgree(kept, all, now, MINUTE) && n == Recent(TimesOf(kept, id), now - MINUTE)
    ensures n == Recent(TimesOf(all, id), now - MINUTE) && Agree(n, TimesOf(all, id), now, MINUTE)
  {
    AgreeCompacted(TimesOf(kept, id), TimesOf(all, id), now, MINUTE);
  }

  ghost predicate AllBounded(all: Times, limit: nat) {
    forall u :: Bounded(TimesOf(all, u), limit)
  }

  lemma AcceptAgrees(kept: Times, all: Times, n: seq<int>, id: string, now: int, limit: nat)
    requires AllAgree(kept, all, now, MINUTE) && AllBounded(all, limit)
    requires Agree(n, TimesOf(all, id), now, MINUTE) && |Recent(TimesOf(all, id), now - MINUTE)| < limit
    ensures var all' := all[id := TimesOf(all, id) + [now]];
            AllAgree(kept[id := n + [now]], all', now, MINUTE) && AllBounded(all', limit)
  {
    var all' := all[id := TimesOf(all, id) + [now]];
    AgreeWithNow(n, TimesOf(all, id), now, MINUTE);
    AgreeAfterChange(kept, all, kept[id := n + [now]], all', id, now, MINUTE);
    AcceptKeepsBound(TimesOf(all, id), now, limit);
    forall u
      ensures Bounded(TimesOf(all', u), limit)
    {
      assert Bounded(TimesOf(all, u), limit);
    }
  }

  predicate IsBusy(ts: seq<int>, cut: int) { ts != [] && ts[|ts| - 1] > cut }

  /** The users whose last request came after `cut`. */
  function Busy(m: Times, cut: int): Times {
    map u | u in m && IsBusy(m[u], cut) :: m[u]
  }

  class RateLimiter {
    const perMinute: nat
    var rate: Times
    var cleanup: int
    ghost var accepts: Times
    ghost var clock: int

    constructor (perMinute: nat, start: int)
      ensures Valid() && this.perMinute == perMinute && clock == start && accepts == map[]
    {
      this.perMinute, rate, cleanup, accepts, clock := perMinute, map[], start - MINUTE, map[], start;
    }

    ghost predicate Valid()
      reads this
    {
      AllAgree(rate, accepts, clock, MINUTE) && AllBounded(accepts, perMinute)
    }

    /** Decides as if every accepted request were remembered for ever. */
    method Allow(id: string, now: int) returns (ok: bool)
      requires Valid() && clock <= now
      modifies this
      ensures Valid() && clock == now
      ensures ok <==> |Recent(TimesOf(old(accepts), id), now - MINUTE)| < perMinute
      ensures var ts := if id in old(accepts) then old(accepts)[id] else [];
              && (ok <==> |set i: nat | i < |ts| && ts[i] > now - 60_000_000_000| < perMinute)
              && accepts == if ok then old(accepts)[id := ts + [now]] else old(accepts)
      ensures cleanup == if now - old(cleanup) >= MINUTE then now else old(cleanup)
      ensures var base := if now - old(cleanup) >= MINUTE then Busy(old(rate), now - MINUTE) else old(rate);
              rate == Put(base, id, Recent(TimesOf(accepts, id), now - MINUTE))
      ensures id in rate <==> ok || Recent(TimesOf(accepts, id), now - MINUTE) != []
    {
      var cut := now - MINUTE;
      RecentCounts(TimesOf(accepts, id), now - MINUTE);
      AllAgreeLater(rate, accepts, clock, now, MINUTE);
      clock := now;
      if now - cleanup >= MINUTE {
        Prune(cut);
        cleanup := now;
      }
      ok := Decide(id, now);
    }

    /** The decision for one user, after the clock has moved and old users were dropped. */
    method Decide(id: string, now: int) returns (ok: bool)
      requires Valid() && clock == now
      modifies this`rate, this`accepts
      ensures Valid()
      ensures ok <==> |Recent(TimesOf(old(accepts), id), now - MINUTE)| < perMinute
      ensures accepts == if ok then old(accepts)[id := TimesOf(old(accepts), id) + [now]] else old(accepts)
      ensures rate == Put(old(rate), id, Recent(TimesOf(accepts, id), now - MINUTE))
    {
      var n := Compact(TimesOf(rate, id), now - MINUTE);
      NothingMissed(rate, accepts, n, id, now);
      if |n| >= perMinute {
        Refuse(id, n, now);
        return false;
      }
      RecentSnoc(TimesOf(accepts, id), now, now - MINUTE);
      Accept(id, n, now);
      return true;
    }

    method Refuse(id: string, n: seq<int>, ghost now: int)
      requires Valid() && clock == now && Agree(n, TimesOf(accepts, id), now, MINUTE)
      modifies this`rate
      ensures Valid() && rate == Put(old(rate), id, n)
    {
      RefusalAgrees(rate, accepts, n, id, now);
      rate := if |n| == 0 then rate - {id} else rate[id := n];
    }

    method Accept(id: string, n: seq<int>, now: int)
      requires Valid() && clock == now && Agree(n, TimesOf(accepts, id), now, MINUTE)
      requires |Recent(TimesOf(accepts, id), now - MINUTE)| < perMinute
      modifies this`rate, this`accepts
      ensures Valid() && rate == old(rate)[id := n + [now]]
      ensures accepts == old(accepts)[id := TimesOf(old(accepts), id) + [now]]
    {
      AcceptAgrees(rate, accepts, n, id, now, perMinute);
      rate := rate[id := n + [now]];
      accepts := accepts[id := TimesOf(accepts, id) + [now]];
    }

    /** Drops the users whose last request is too old to matter, and nobody else. */
    method Prune(cut: int)
      requires Valid() && cut == clock - MINUTE
      modifies this`rate
      ensures Valid() && rate == Busy(old(rate), cut)
      ensures forall u :: u in rate <==> u in old(rate) && old(rate)[u] != [] && old(rate)[u][|old(rate)[u]| - 1] > cut
      ensures forall u <- rate :: rate[u] == old(rate)[u]
    {
      var todo := rate.Keys;
      while todo != {}
        invariant Valid() && todo <= old(rate).Keys
        invariant rate == map u | u in old(rate) && (u in todo || IsBusy(old(rate)[u], cut)) :: old(rate)[u]
      {
        var key :| key in todo;
        todo := todo - {key};
        var entries := rate[key];
        if |entries| == 0 || entries[|entries| - 1] <= cut {
          DroppedAgrees(entries, TimesOf(accepts, key), clock, MINUTE);
          AgreeAfterChange(rate, accepts, rate - {key}, accepts, key, clock, MINUTE);
          rate := rate - {key};
        }
      }
    }
  }

  // ---------- Failed logins ----------

  const LOCKOUT: int := 10 * MINUTE
  const MAX_FAILURES := 5

  lemma FailureAgrees(kept: Times, all: Times, key: string, now: int)
    requires AllAgree(kept, all, now, LOCKOUT)
    ensures AllAgree(kept[key := TimesOf(kept, key) + [now]], all[key := TimesOf(all, key) + [now]], now, LOCKOUT)
  {
    var kept', all' := kept[key := TimesOf(kept, key) + [now]], all[key := TimesOf(all, key) + [now]];
    AgreeWithNow(TimesOf(kept, key), TimesOf(all, key), now, LOCKOUT);
    AgreeAfterChange(kept, all, kept', all', key, now, LOCKOUT);
  }

  class LoginGuard {
    var failures: Times
    ghost var recorded: Times
    ghost var clock: int

    constructor (start: int)
      ensures Valid() && recorded == map[] && clock == start
    {
      failures, recorded, clock := map[], map[], start;
    }

    ghost predicate Valid()
      reads this
    {
      AllAgree(failures, recorded, clock, LOCKOUT)
    }

    /** Blocked exactly after five failures within ten minutes, and never for a time that is over. */
    method LoginBlocked(key: string, now: int) returns (retry: int, blocked: bool)
      requires Valid() && clock <= now
      modifies this
      ensures Valid() && clock == now && recorded == old(recorded)
      ensures blocked <==> |Recent(TimesOf(recorded, key), now - LOCKOUT)| >= MAX_FAILURES
      ensures retry == if blocked then Recent(TimesOf(recorded, key), now - LOCKOUT)[0] + LOCKOUT - now else 0
      ensures blocked ==> 0 < retry <= LOCKOUT
      ensures var fs, cut := if key in recorded then recorded[key] else [], now - 600_000_000_000;
              && (blocked <==> |set i: nat | i < |fs| && fs[i] > cut| >= 5)
              && forall k: nat :: blocked && IsFirstAfter(fs, k, cut) ==> retry == fs[k] - cut
    {
      AllAgreeLater(failures, recorded, clock, now, LOCKOUT);
      clock := now;
      var cutoff := now - LOCKOUT;
      RecentCounts(TimesOf(recorded, key), cutoff);
      forall k: nat | IsFirstAfter(TimesOf(recorded, key), k, cutoff)
        ensures Recent(TimesOf(recorded, key), cutoff) != [] && Recent(TimesOf(recorded, key), cutoff)[0] == TimesOf(recorded, key)[k]
      {
        FirstRecent(TimesOf(recorded, key), cutoff, k);
      }
      var items := Compact(TimesOf(failures, key), cutoff);
      AgreeCompacted(TimesOf(failures, key), TimesOf(recorded, key), now, LOCKOUT);
      RecentIsAfter(TimesOf(failures, key), cutoff, now);
      AgreeAfterChange(failures, recorded, failures[key := items], recorded, key, now, LOCKOUT);
      failures := failures[key := items];
      if |items| < MAX_FAILURES {
        return 0, false;
      }
      return items[0] + LOCKOUT - now, true;
    }

    method RecordFailure(key: string, now: int)
      requires Valid() && clock <= now
      modifies this
      ensures Valid() && clock == now
      ensures recorded == old(recorded)[key := TimesOf(old(recorded), key) + [now]]
    {
      AllAgreeLater(failures, recorded, clock, now, LOCKOUT);
      clock := now;
      FailureAgrees(failures, recorded, key, now);
      failures := failures[key := TimesOf(failures, key) + [now]];
      recorded := recorded[key := TimesOf(recorded, key) + [now]];
    }

    method ClearFailures(key: string)
      requires Valid()
      modifies this`failures, this`recorded
      ensures Valid() && recorded == old(recorded) - {key}
    {
      AgreeAfterChange(failures, recorded, failures - {key}, recorded - {key}, key, clock, LOCKOUT);
      failures := failures - {key};
      recorded := recorded - {key};
    }
  }
}
