/**
 Gap accounting for one frps instance that serves the newest records of a bounded ring.
 */
module GapAccounting {
  import opened Options
  import opened AccessLog
  import opened Ingest

  /** A log that holds record n under the number n. */
  ghost predicate IsLog(log: nat -> AccessRecord, instance: string) {
    forall n: nat :: KeyOf(log(n)) == Key(instance, n)
  }

  /** Records lo to hi, newest first. */
  function Page(log: nat -> AccessRecord, lo: nat, hi: nat): seq<AccessRecord>
    decreases hi + 1 - lo
  {
    if lo > hi then [] else Page(log, lo + 1, hi) + [log(lo)]
  }

  /** The oldest record still served when n were written; a page holds at most `cap` records. */
  function Oldest(n: nat, cap: nat): nat {
    if n > cap then n - cap + 1 else 1
  }

  /** Records written so far, the table, its greatest number (0 for none), and what warned polls skipped. */
  datatype Feed = Feed(written: nat, rows: Rows, top: nat, skipped: nat)

  datatype Event = Write | Poll(ok: bool)

  predicate PollWarns(f: Feed, cap: nat) {
    f.written > 0 && Warns(Range(Oldest(f.written, cap), f.written, f.written - Oldest(f.written, cap) + 1), f.top + 1)
  }

  function Polled(f: Feed, log: nat -> AccessRecord, cap: nat): Feed {
    if f.written == 0 then f
    else
      var lo := Oldest(f.written, cap);
      Feed(f.written, InsertedAll(f.rows, Page(log, lo, f.written)), f.written,
           if PollWarns(f, cap) && lo > f.top then f.skipped + (lo - (f.top + 1)) else f.skipped)
  }

  function Fed(f: Feed, e: Event, log: nat -> AccessRecord, cap: nat): Feed {
    match e
    case Write => f.(written := f.written + 1)
    case Poll(ok) => if ok then Polled(f, log, cap) else f
  }

  function FedAll(es: seq<Event>, log: nat -> AccessRecord, cap: nat): Feed {
    if es == [] then Feed(0, map[], 0, 0) else Fed(FedAll(es[..|es| - 1], log, cap), es[|es| - 1], log, cap)
  }

  function Cursor(top: nat): Option<nat> {
    if top == 0 then None else Some(top)
  }

  lemma RangeSnoc(rs: seq<AccessRecord>, r: AccessRecord, instance: string, n: nat)
    requires KeyOf(r) == Key(instance, n)
    ensures RangeOf(rs + [r], instance) == Some(Widen(RangeOf(rs, instance), n))
  {
    assert (rs + [r])[..|rs|] == rs;
  }

  function Whole(lo: nat, hi: nat): Option<Range> {
    if lo > hi then None else Some(Range(lo, hi, hi - lo + 1))
  }

  lemma {:induction false} PageRange(log: nat -> AccessRecord, instance: string, lo: nat, hi: nat)
    requires IsLog(log, instance)
    ensures RangeOf(Page(log, lo, hi), instance) == Whole(lo, hi)
    decreases hi + 1 - lo
  {
    if lo <= hi {
      PageRange(log, instance, lo + 1, hi);
      RangeSnoc(Page(log, lo + 1, hi), log(lo), instance, lo);
    }
  }

  function KeysBetween(instance: string, lo: nat, hi: nat): set<Key>
    decreases hi + 1 - lo
  {
    if lo > hi then {} else KeysBetween(instance, lo + 1, hi) + {Key(instance, lo)}
  }

  lemma {:induction false} KeysBetweenMembers(instance: string, lo: nat, hi: nat)
    requires lo <= hi + 1
    ensures forall k :: k in KeysBetween(instance, lo, hi) <==> k.instance == instance && lo <= k.number <= hi
    ensures |KeysBetween(instance, lo, hi)| == hi - lo + 1
    decreases hi + 1 - lo
  {
    if lo <= hi {
      KeysBetweenMembers(instance, lo + 1, hi);
    }
  }

  lemma {:induction false} PageKeys(log: nat -> AccessRecord, instance: string, lo: nat, hi: nat)
    requires IsLog(log, instance)
    ensures Keys(Page(log, lo, hi)) == KeysBetween(instance, lo, hi)
    ensures forall r <- Page(log, lo, hi) :: r == log(r.number)
    decreases hi + 1 - lo
  {
    if lo <= hi {
      PageKeys(log, instance, lo + 1, hi);
      assert KeyOf(log(lo)) == Key(instance, lo);
      var rest := Page(log, lo + 1, hi);
      assert Keys(rest + [log(lo)]) == Keys(rest) + {KeyOf(log(lo))};
    }
  }

  /** Stored records are the right ones, the newest ones are all there, and stored plus skipped is all there was. */
  ghost predicate Accounts(f: Feed, log: nat -> AccessRecord, instance: string, cap: nat) {
    && f.top <= f.written
    && (forall k <- f.rows :: k.instance == instance && 0 < k.number <= f.top && f.rows[k] == log(k.number))
    && (forall n: nat :: 0 < n && Oldest(f.top, cap) <= n <= f.top ==> Key(instance, n) in f.rows)
    && |f.rows| + f.skipped == f.top
  }

  lemma CursorOfAccounts(f: Feed, log: nat -> AccessRecord, instance: string, cap: nat)
    requires Accounts(f, log, instance, cap) && cap > 0
    ensures IsCursor(f.rows, instance, Cursor(f.top)) && Expected(Cursor(f.top)) == f.top + 1
  {
    if f.top > 0 {
      assert Key(instance, f.top) in f.rows;
    }
  }

  lemma SumOfDisjoint(a: set<Key>, b: set<Key>)
    requires a !! b
    ensures |a + b| == |a| + |b|
  {
  }

  /** The first number a poll adds. */
  function From(f: Feed, cap: nat): nat {
    if Oldest(f.written, cap) > f.top + 1 then Oldest(f.written, cap) else f.top + 1
  }

  lemma PolledRows(f: Feed, log: nat -> AccessRecord, instance: string, cap: nat)
    requires Accounts(f, log, instance, cap) && IsLog(log, instance) && f.written > 0
    ensures var f' := Polled(f, log, cap);
            && f'.rows.Keys == f.rows.Keys + KeysBetween(instance, Oldest(f.written, cap), f.written)
            && forall k <- f'.rows :: f'.rows[k] == log(k.number)
  {
    var page := Page(log, Oldest(f.written, cap), f.written);
    InsertKeepsRows(f.rows, page);
    PageKeys(log, instance, Oldest(f.written, cap), f.written);
  }

  lemma ServedAgain(f: Feed, log: nat -> AccessRecord, instance: string, cap: nat, lo: nat)
    requires Accounts(f, log, instance, cap) && Oldest(f.top, cap) <= lo <= f.top + 1
    ensures KeysBetween(instance, lo, f.top) <= f.rows.Keys
  {
    KeysBetweenMembers(instance, lo, f.top);
    forall k | k in KeysBetween(instance, lo, f.top)
      ensures k in f.rows
    {
      assert k == Key(instance, k.number);
    }
  }

  lemma NotStoredYet(f: Feed, log: nat -> AccessRecord, instance: string, cap: nat, from: nat)
    requires Accounts(f, log, instance, cap) && f.top < from <= f.written + 1
    ensures f.rows.Keys !! KeysBetween(instance, from, f.written)
  {
    KeysBetweenMembers(instance, from, f.written);
  }

  lemma OnlyNewKeys(f: Feed, log: nat -> AccessRecord, instance: string, cap: nat)
    requires Accounts(f, log, instance, cap) && cap > 0 && f.written > 0
    ensures var stored := f.rows.Keys;
            && stored + KeysBetween(instance, Oldest(f.written, cap), f.written) == stored + KeysBetween(instance, From(f, cap), f.written)
            && stored !! KeysBetween(instance, From(f, cap), f.written)
  {
    NotStoredYet(f, log, instance, cap, From(f, cap));
    if Oldest(f.written, cap) <= f.top {
      ServedAgain(f, log, instance, cap, Oldest(f.written, cap));
    }
    AddsFrom(f, f.rows.Keys, instance, cap);
  }

  lemma AddsFrom(f: Feed, stored: set<Key>, instance: string, cap: nat)
    requires cap > 0 && 0 < f.written && f.top <= f.written
    requires Oldest(f.written, cap) <= f.top ==> KeysBetween(instance, Oldest(f.written, cap), f.top) <= stored
    ensures stored + KeysBetween(instance, Oldest(f.written, cap), f.written) == stored + KeysBetween(instance, From(f, cap), f.written)
  {
    if Oldest(f.written, cap) <= f.top {
      AddsTheRest(stored, instance, Oldest(f.written, cap), f.top, f.written);
    }
  }

  lemma AddsTheRest(stored: set<Key>, instance: string, lo: nat, mid: nat, hi: nat)
    requires lo <= mid <= hi && KeysBetween(instance, lo, mid) <= stored
    ensures stored + KeysBetween(instance, lo, hi) == stored + KeysBetween(instance, mid + 1, hi)
  {
    KeysBetweenSplits(instance, lo, mid, hi);
  }

  lemma {:induction false} KeysBetweenSplits(instance: string, lo: nat, mid: nat, hi: nat)
    requires lo <= mid + 1 && mid <= hi
    ensures KeysBetween(instance, lo, hi) == KeysBetween(instance, lo, mid) + KeysBetween(instance, mid + 1, hi)
    decreases mid + 1 - lo
  {
    if lo <= mid {
      KeysBetweenSplits(instance, lo + 1, mid, hi);
    }
  }

  lemma RowsGrowBy(f: Feed, log: nat -> AccessRecord, instance: string, cap: nat)
    requires Accounts(f, log, instance, cap) && IsLog(log, instance) && cap > 0 && f.written > 0
    ensures |Polled(f, log, cap).rows| == |f.rows| + |KeysBetween(instance, From(f, cap), f.written)|
  {
    PolledRows(f, log, instance, cap);
    OnlyNewKeys(f, log, instance, cap);
    SumOfDisjoint(f.rows.Keys, KeysBetween(instance, From(f, cap), f.written));
    assert |Polled(f, log, cap).rows| == |Polled(f, log, cap).rows.Keys|;
  }

  lemma SkippedIs(f: Feed, log: nat -> AccessRecord, cap: nat)
    requires f.top <= f.written && f.written > 0 && cap > 0
    ensures Polled(f, log, cap).skipped - f.skipped == From(f, cap) - (f.top + 1)
    ensures From(f, cap) <= f.written + 1
  {
  }

  lemma PollCounts(f: Feed, log: nat -> AccessRecord, instance: string, cap: nat)
    requires Accounts(f, log, instance, cap) && IsLog(log, instance) && cap > 0 && f.written > 0
    ensures var f' := Polled(f, log, cap); |f'.rows| + f'.skipped == f'.top
  {
    RowsGrowBy(f, log, instance, cap);
    SkippedIs(f, log, cap);
    KeysBetweenMembers(instance, From(f, cap), f.written);
  }

  lemma PollAccounts(f: Feed, log: nat -> AccessRecord, instance: string, cap: nat)
    requires Accounts(f, log, instance, cap) && IsLog(log, instance) && cap > 0
    ensures Accounts(Polled(f, log, cap), log, instance, cap)
  {
    if f.written > 0 {
      PolledRows(f, log, instance, cap);
      KeysBetweenMembers(instance, Oldest(f.written, cap), f.written);
      PollCounts(f, log, instance, cap);
    }
  }

  /** In every run the stored records and the skipped ones add up to the newest number fetched. */
  lemma {:induction false} GapsAreAccounted(es: seq<Event>, log: nat -> AccessRecord, instance: string, cap: nat)
    requires IsLog(log, instance) && cap > 0
    ensures Accounts(FedAll(es, log, cap), log, instance, cap)
    ensures es != [] && es[|es| - 1] == Poll(true) ==> FedAll(es, log, cap).top == FedAll(es, log, cap).written
  {
    if es != [] {
      GapsAreAccounted(es[..|es| - 1], log, instance, cap);
      PollAccounts(FedAll(es[..|es| - 1], log, cap), log, instance, cap);
    }
  }

  /**
   The poller's own test on the served page is `PollWarns`, and it warns exactly when a record
   written since the last poll can no longer be had.
   */
  lemma WarnsExactlyOnLoss(f: Feed, log: nat -> AccessRecord, instance: string, cap: nat)
    requires Accounts(f, log, instance, cap) && IsLog(log, instance) && cap > 0 && f.written > 0
    ensures var page := Page(log, Oldest(f.written, cap), f.written);
            RangeOf(page, instance).Some? && (PollWarns(f, cap) <==> Warns(RangeOf(page, instance).value, Expected(Cursor(f.top))))
    ensures PollWarns(f, cap) <==> exists n: nat :: f.top < n <= f.written && Key(instance, n) !in Polled(f, log, cap).rows
  {
    var lo := Oldest(f.written, cap);
    PageRange(log, instance, lo, f.written);
    PolledRows(f, log, instance, cap);
    KeysBetweenMembers(instance, lo, f.written);
    if lo > f.top + 1 {
      assert Key(instance, f.top + 1) !in Polled(f, log, cap).rows;
    }
  }

  // ---------- The poller follows the model ----------

  function ServedPage(log: nat -> AccessRecord, written: nat, cap: nat): seq<AccessRecord> {
    if written == 0 then [] else Page(log, Oldest(written, cap), written)
  }

  /** One poll: `fetched` says whether frps answered, `cursor` and `db` whether the store did. */
  method PollOnce(p: Poller, ghost f: Feed, log: nat -> AccessRecord, ghost instance: string, cap: nat,
                  written: nat, fetched: bool, cursor: bool, db: bool)
    returns (ok: bool, warned: set<string>)
    requires Accounts(f, log, instance, cap) && IsLog(log, instance) && instance != "" && cap > 0
    requires p.st.rows == f.rows && written == f.written
    modifies p.st
    ensures p.st.rows == Fed(f, Poll(ok), log, cap).rows
    ensures ok <==> fetched && (written == 0 || (cursor && db))
    ensures ok ==> (instance in warned <==> PollWarns(f, cap))
  {
    if !fetched {
      return false, {};
    }
    var page := ServedPage(log, written, cap);
    var o;
    o, warned := p.Store(page, _ => cursor, db);
    ok := o.Stored?;
    PageIsServed(f, log, instance, cap);
  }

  /** A served page has records of this instance only, all identified, and the cursor is the newest stored one. */
  lemma PageIsServed(f: Feed, log: nat -> AccessRecord, instance: string, cap: nat)
    requires Accounts(f, log, instance, cap) && IsLog(log, instance) && instance != "" && cap > 0
    ensures IsCursor(f.rows, instance, Cursor(f.top))
    ensures var page := ServedPage(log, f.written, cap);
            && (forall r <- page :: Identified(r))
            && (f.written == 0 <==> page == [])
            && (f.written > 0 ==> RangeOf(page, instance).Some?)
            && (f.written > 0 ==> (PollWarns(f, cap) <==> Warns(RangeOf(page, instance).value, Expected(Cursor(f.top)))))
  {
    CursorOfAccounts(f, log, instance, cap);
    if f.written > 0 {
      WarnsExactlyOnLoss(f, log, instance, cap);
      PageKeys(log, instance, Oldest(f.written, cap), f.written);
      KeysBetweenMembers(instance, Oldest(f.written, cap), f.written);
      var page := ServedPage(log, f.written, cap);
      forall r | r in page
        ensures Identified(r)
      {
        assert KeyOf(r) in Keys(page);
      }
    }
  }
}
