/**
 Gap warnings when old records are pruned. The cursor is read from what is left in the table,
 so once everything was pruned the poller expects the first number again.
 */
module Pruning {
  import opened AccessLog
  import opened GapAccounting
  import opened Ingest
  import opened Options

  /** frps numbers its records in the order of their times. */
  ghost predicate InOrder(log: nat -> AccessRecord) {
    forall m: nat, n: nat :: m <= n ==> log(m).time <= log(n).time
  }

  /** Records written so far, the table, and the newest number ever fetched. */
  datatype Kept = Kept(written: nat, rows: Rows, fetched: nat)

  datatype Event = Record | Fetch(ok: bool) | Prune(before: int, ok: bool)

  function Step(f: Kept, e: Event, log: nat -> AccessRecord, cap: nat): Kept {
    match e
    case Record => f.(written := f.written + 1)
    case Fetch(ok) =>
      if ok && f.written > 0 then Kept(f.written, InsertedAll(f.rows, ServedPage(log, f.written, cap)), f.written) else f
    case Prune(before, ok) => if ok then f.(rows := Pruned(f.rows, before)) else f
  }

  function After(es: seq<Event>, log: nat -> AccessRecord, cap: nat): Kept {
    if es == [] then Kept(0, map[], 0) else Step(After(es[..|es| - 1], log, cap), es[|es| - 1], log, cap)
  }

  /** Stored records are the right ones; unless all were pruned the newest one fetched is still there. */
  ghost predicate Holds(f: Kept, log: nat -> AccessRecord, instance: string) {
    && f.fetched <= f.written
    && (forall k <- f.rows :: k.instance == instance && 0 < k.number <= f.fetched && f.rows[k] == log(k.number))
    && (f.rows != map[] ==> Key(instance, f.fetched) in f.rows)
  }

  /** What a poll stores: everything that frps still serves, pruned before or not. */
  lemma PollStores(f: Kept, log: nat -> AccessRecord, instance: string, cap: nat)
    requires Holds(f, log, instance) && IsLog(log, instance) && f.written > 0
    ensures var f' := Step(f, Fetch(true), log, cap);
            && f'.rows.Keys == f.rows.Keys + KeysBetween(instance, Oldest(f.written, cap), f.written)
            && forall k <- f'.rows :: f'.rows[k] == log(k.number)
  {
    InsertKeepsRows(f.rows, ServedPage(log, f.written, cap));
    PageKeys(log, instance, Oldest(f.written, cap), f.written);
  }

  lemma PollHolds(f: Kept, log: nat -> AccessRecord, instance: string, cap: nat)
    requires Holds(f, log, instance) && IsLog(log, instance) && cap > 0
    ensures Holds(Step(f, Fetch(true), log, cap), log, instance)
  {
    if f.written > 0 {
      PollStores(f, log, instance, cap);
      KeysBetweenMembers(instance, Oldest(f.written, cap), f.written);
      assert Key(instance, f.written) in KeysBetween(instance, Oldest(f.written, cap), f.written);
    }
  }

  lemma PruneHolds(f: Kept, log: nat -> AccessRecord, instance: string, before: int)
    requires Holds(f, log, instance) && InOrder(log)
    ensures Holds(f.(rows := Pruned(f.rows, before)), log, instance)
  {
    var rows := Pruned(f.rows, before);
    if k :| k in rows {
      assert log(k.number).time <= log(f.fetched).time;
    } else {
      assert rows == map[];
    }
  }

  lemma {:induction false} RunsHold(es: seq<Event>, log: nat -> AccessRecord, instance: string, cap: nat)
    requires IsLog(log, instance) && InOrder(log) && cap > 0
    ensures Holds(After(es, log, cap), log, instance)
  {
    if es != [] {
      var f, e := After(es[..|es| - 1], log, cap), es[|es| - 1];
      RunsHold(es[..|es| - 1], log, instance, cap);
      match e
      case Fetch(ok) => if ok { PollHolds(f, log, instance, cap); }
      case Prune(before, ok) => if ok { PruneHolds(f, log, instance, before); }
      case Record =>
    }
  }

  /** The cursor of the table. */
  function CursorOf(f: Kept): Option<nat> {
    if f.rows == map[] then None else Some(f.fetched)
  }

  lemma CursorIs(f: Kept, log: nat -> AccessRecord, instance: string)
    requires Holds(f, log, instance)
    ensures IsCursor(f.rows, instance, CursorOf(f))
  {
  }

  /** A record written since the last poll is not served any more. */
  predicate Lost(f: Kept, cap: nat) { Oldest(f.written, cap) > f.fetched + 1 }

  /** Everything was pruned, and what frps serves does not begin with the first record. */
  predicate ForgottenAll(f: Kept, cap: nat) { f.rows == map[] && Oldest(f.written, cap) > 1 }

  /** The test the poller makes on the page it is served. */
  ghost predicate PollerWarns(f: Kept, log: nat -> AccessRecord, instance: string, cap: nat) {
    var r := RangeOf(ServedPage(log, f.written, cap), instance);
    r.Some? && exists c :: IsCursor(f.rows, instance, c) && Warns(r.value, Expected(c))
  }

  /**
   In every run with pruning a poll warns exactly when a record written since the last poll is lost,
   or all records were pruned and the ring has moved on. So it warns without a loss exactly when all
   were pruned and frps still serves the record after the newest one fetched.
   */
  lemma WarnsExactlyWithPruning(es: seq<Event>, log: nat -> AccessRecord, instance: string, cap: nat)
    requires IsLog(log, instance) && InOrder(log) && cap > 0 && After(es, log, cap).written > 0
    ensures var f := After(es, log, cap);
            && (PollerWarns(f, log, instance, cap) <==> Lost(f, cap) || ForgottenAll(f, cap))
            && (PollerWarns(f, log, instance, cap) && !Lost(f, cap) <==>
                f.rows == map[] && 1 < Oldest(f.written, cap) <= f.fetched + 1)
  {
    var f := After(es, log, cap);
    RunsHold(es, log, instance, cap);
    CursorIs(f, log, instance);
    CursorIsUnique(f.rows, instance, CursorOf(f));
    PageRange(log, instance, Oldest(f.written, cap), f.written);
    WarnsByCursor(f, cap, Expected(CursorOf(f)));
  }

  lemma WarnsByCursor(f: Kept, cap: nat, expected: nat)
    requires f.written > 0 && cap > 0 && expected == Expected(CursorOf(f)) && f.fetched <= f.written
    ensures var lo := Oldest(f.written, cap);
            Warns(Range(lo, f.written, f.written - lo + 1), expected) <==> Lost(f, cap) || ForgottenAll(f, cap)
  {
  }

  /** And the next poll stores pruned records again, as far as they are served. */
  lemma PrunedComeBack(es: seq<Event>, log: nat -> AccessRecord, instance: string, cap: nat, n: nat)
    requires IsLog(log, instance) && InOrder(log) && cap > 0
    requires var f := After(es, log, cap); Oldest(f.written, cap) <= n <= f.written
    ensures var f' := After(es + [Fetch(true)], log, cap); Key(instance, n) in f'.rows
  {
    var f := After(es, log, cap);
    RunsHold(es, log, instance, cap);
    assert (es + [Fetch(true)])[..|es|] == es;
    PollStores(f, log, instance, cap);
    KeysBetweenMembers(instance, Oldest(f.written, cap), f.written);
  }

  lemma AfterSnoc(es: seq<Event>, e: Event, log: nat -> AccessRecord, cap: nat)
    ensures After(es + [e], log, cap) == Step(After(es, log, cap), e, log, cap)
  {
    assert (es + [e])[..|es|] == es;
  }

  /** The input: both records were fetched in time, then all are pruned, and the next poll warns. */
  lemma WarnsWithoutLoss(log: nat -> AccessRecord, instance: string, before: int)
    requires IsLog(log, instance) && InOrder(log) && before > log(2).time
    ensures var f := After([Record, Fetch(true), Record, Fetch(true), Prune(before, true)], log, 1);
            !Lost(f, 1) && PollerWarns(f, log, instance, 1)
  {
    var es := [Record, Fetch(true), Record, Fetch(true)];
    TwoFetched(log);
    RunsHold(es, log, instance, 1);
    var f := After(es, log, 1);
    AfterSnoc(es, Prune(before, true), log, 1);
    assert es + [Prune(before, true)] == [Record, Fetch(true), Record, Fetch(true), Prune(before, true)];
    forall k | k in f.rows
      ensures f.rows[k].time < before
    {
      assert log(k.number).time <= log(2).time;
    }
    assert Pruned(f.rows, before) == map[];
    WarnsExactlyWithPruning(es + [Prune(before, true)], log, instance, 1);
  }

  /** A record is written and fetched at once. */
  lemma FetchedAtOnce(es: seq<Event>, log: nat -> AccessRecord)
    ensures var f := After(es + [Record] + [Fetch(true)], log, 1);
            f.written == After(es, log, 1).written + 1 && f.fetched == f.written
  {
    AfterSnoc(es, Record, log, 1);
    AfterSnoc(es + [Record], Fetch(true), log, 1);
  }

  lemma TwoFetched(log: nat -> AccessRecord)
    ensures var f := After([Record, Fetch(true), Record, Fetch(true)], log, 1); f.written == 2 && f.fetched == 2
  {
    var none, one: seq<Event> := [], [Record, Fetch(true)];
    FetchedAtOnce(none, log);
    assert none + [Record] + [Fetch(true)] == one;
    FetchedAtOnce(one, log);
    assert one + [Record] + [Fetch(true)] == [Record, Fetch(true), Record, Fetch(true)];
  }
}
