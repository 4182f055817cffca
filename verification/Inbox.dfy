/**
 The durable inbox of chat events: items are claimed by workers, completed or retried
 with growing delays, and put back when the process restarts.
 */
module Inbox {
  import opened Options
  import opened Backoff

  datatype Status = Pending | Processing | Completed

  datatype Item = Item(payload: string, status: Status, attempts: nat, nextAt: int, createdAt: int)

  type Items = map<string, Item>

  datatype Claim = Claim(id: string, payload: string, attempts: nat)

  predicate Claimable(it: Item, now: int) { it.status.Pending? && it.nextAt <= now }

  /** INSERT ... ON CONFLICT DO NOTHING; an event without identifier or payload is refused. */
  function Enqueued(box: Items, id: string, payload: string, now: int): Items {
    if id == "" || payload == "" || id in box then box else box[id := Item(payload, Pending, 0, now, now)]
  }

  function WithStatus(box: Items, id: string, status: Status): Items {
    if id in box then box[id := box[id].(status := status)] else box
  }

  function Retried(box: Items, id: string, attempts: nat, now: int): Items {
    if id !in box then box
    else box[id := box[id].(status := Pending, attempts := box[id].attempts + 1, nextAt := now + Delay(attempts))]
  }

  /** What opening the database does to items that were being processed. */
  function Reopened(box: Items): Items {
    map id | id in box :: if box[id].status.Processing? then box[id].(status := Pending) else box[id]
  }

  class InboxStore {
    var items: Items

    constructor ()
      ensures items == map[]
    {
      items := map[];
    }

    method EnqueueInbox(id: string, payload: string, now: int, db: bool) returns (ok: bool)
      modifies this
      ensures items == if db then Enqueued(old(items), id, payload, now) else old(items)
      ensures ok <==> db && id != "" && payload != ""
      ensures items == if ok && id !in old(items) then old(items)[id := Item(payload, Pending, 0, now, now)] else old(items)
    {
      if id == "" || payload == "" {
        return false;
      }
      if db && id !in items {
        items := items[id := Item(payload, Pending, 0, now, now)];
      }
      return db;
    }

    /** Takes the oldest item that is due. */
    method ClaimInbox(now: int, db: bool) returns (c: Option<Claim>)
      modifies this
      ensures c.None? ==> items == old(items)
      ensures c.None? && db ==> forall id <- items :: items[id].status.Pending? ==> now < items[id].nextAt
      ensures c.Some? ==>
                var id := c.value.id;
                && db && id in old(items) && Claimable(old(items)[id], now)
                && c == Some(Claim(id, old(items)[id].payload, old(items)[id].attempts))
                && (forall other <- old(items) :: Claimable(old(items)[other], now) ==>
                      old(items)[id].createdAt <= old(items)[other].createdAt)
                && items == WithStatus(old(items), id, Processing)
                && old(items)[id].status.Pending? && old(items)[id].nextAt <= now
                && items == old(items)[id := old(items)[id].(status := Processing)]
    {
      c := None;
      if !db {
        return;
      }
      var todo := items.Keys;
      while todo != {}
        invariant todo <= items.Keys
        invariant c.None? ==> forall id <- items.Keys - todo :: !Claimable(items[id], now)
        invariant c.Some? ==>
                    var id := c.value.id;
                    && id in items && Claimable(items[id], now)
                    && c == Some(Claim(id, items[id].payload, items[id].attempts))
                    && forall other <- items.Keys - todo :: Claimable(items[other], now) ==>
                         items[id].createdAt <= items[other].createdAt
      {
        var id :| id in todo;
        todo := todo - {id};
        if Claimable(items[id], now) && (c.None? || items[id].createdAt < items[c.value.id].createdAt) {
          c := Some(Claim(id, items[id].payload, items[id].attempts));
        }
      }
      if c.Some? {
        var it := items[c.value.id];
        items := items[c.value.id := Item(it.payload, Processing, it.attempts, it.nextAt, it.createdAt)];
      }
    }

    method CompleteInbox(id: string, db: bool)
      modifies this
      ensures items == if db then WithStatus(old(items), id, Completed) else old(items)
      ensures items == if db && id in old(items) then old(items)[id := old(items)[id].(status := Completed)] else old(items)
    {
      if db && id in items {
        var it := items[id];
        items := items[id := Item(it.payload, Completed, it.attempts, it.nextAt, it.createdAt)];
      }
    }

    method RetryInbox(id: string, attempts: nat, now: int, db: bool)
      modifies this
      ensures items == if db then Retried(old(items), id, attempts, now) else old(items)
      ensures items.Keys == old(items).Keys && forall other <- items :: other != id || !db ==> items[other] == old(items)[other]
      ensures db && id in old(items) ==>
                items[id] == Item(old(items)[id].payload, Pending, old(items)[id].attempts + 1,
                                  now + Pow2(if attempts < 8 then attempts else 8), old(items)[id].createdAt)
    {
      if db && id in items {
        var it := items[id];
        var wait := Pow2(if attempts < 8 then attempts else 8);
        items := items[id := Item(it.payload, Pending, it.attempts + 1, now + wait, it.createdAt)];
      }
    }

    /** One turn of a worker, from claiming an item to settling it. */
    method WorkOnce(now: int, claim: bool, handled: bool, complete: bool, retry: bool) returns (c: Option<Claim>)
      modifies this
      ensures c.None? ==> items == old(items)
      ensures c.None? && claim ==> forall id <- items :: items[id].status.Pending? ==> now < items[id].nextAt
      ensures c.Some? ==> c.value.id in old(items) && Claimable(old(items)[c.value.id], now)
      ensures c.Some? ==>
                items == Settled(WithStatus(old(items), c.value.id, Processing),
                                 c.value.id, old(items)[c.value.id].attempts, now, handled && complete, retry)
    {
      c := ClaimInbox(now, claim);
      if c.Some? {
        if handled {
          CompleteInbox(c.value.id, complete);
        }
        if !(handled && complete) {
          RetryInbox(c.value.id, c.value.attempts, now, retry);
        }
      }
    }
  }

  /** How a worker leaves an item: completed, else retried if the store lets it. */
  function Settled(box: Items, id: string, attempts: nat, now: int, done: bool, retry: bool): Items {
    if done then WithStatus(box, id, Completed)
    else if retry then Retried(box, id, attempts, now)
    else box
  }

  // ---------- Many workers and restarts ----------

  /** The items the live workers hold, as they were claimed. */
  datatype Sys = Sys(now: int, box: Items, held: map<nat, Claim>)

  datatype Event =
    | Tick
    | Arrive(id: string, payload: string)
    | Take(worker: nat, id: string)
    | Settle(worker: nat, done: bool, retry: bool)
    | Restart

  function Step(s: Sys, e: Event): Sys {
    match e
    case Tick => s.(now := s.now + 1)
    case Arrive(id, payload) => s.(box := Enqueued(s.box, id, payload, s.now))
    case Take(w, id) =>
      if w in s.held || id !in s.box || !Claimable(s.box[id], s.now) then s
      else s.(box := WithStatus(s.box, id, Processing), held := s.held[w := Claim(id, s.box[id].payload, s.box[id].attempts)])
    case Settle(w, done, retry) =>
      if w !in s.held then s
      else s.(box := Settled(s.box, s.held[w].id, s.held[w].attempts, s.now, done, retry), held := s.held - {w})
    case Restart => s.(box := Reopened(s.box), held := map[])
  }

  function Run(s: Sys, es: seq<Event>): Sys {
    if es == [] then s else Step(Run(s, es[..|es| - 1]), es[|es| - 1])
  }

  predicate OnTime(it: Item, now: int) {
    it.nextAt >= it.createdAt + Waited(it.attempts) && (it.status.Processing? ==> it.nextAt <= now)
  }

  predicate AllOnTime(box: Items, now: int) { forall id <- box :: OnTime(box[id], now) }

  predicate HoldsRightly(s: Sys, w: nat)
    requires w in s.held
  {
    var c := s.held[w];
    c.id in s.box && s.box[c.id].status.Processing? && s.box[c.id].attempts == c.attempts && s.box[c.id].payload == c.payload
  }

  /** An item is held by at most one worker, and every retry came after the whole backoff. */
  ghost predicate Orderly(s: Sys) {
    && (forall w <- s.held :: HoldsRightly(s, w))
    && (forall v, w :: v in s.held && w in s.held && v != w ==> s.held[v].id != s.held[w].id)
    && AllOnTime(s.box, s.now)
  }

  lemma SettleOnTime(it: Item, now: int)
    requires OnTime(it, now) && it.status.Processing?
    ensures OnTime(it.(status := Pending, attempts := it.attempts + 1, nextAt := now + Delay(it.attempts)), now)
  {
  }

  /** Changing one item keeps the others on time. */
  lemma OneItemChanges(box: Items, id: string, it: Item, now: int)
    requires AllOnTime(box, now) && OnTime(it, now)
    ensures AllOnTime(box[id := it], now)
  {
  }

  lemma ArriveIsOrderly(s: Sys, id: string, payload: string)
    requires Orderly(s)
    ensures Orderly(Step(s, Arrive(id, payload)))
  {
    if id != "" && payload != "" && id !in s.box {
      OneItemChanges(s.box, id, Item(payload, Pending, 0, s.now, s.now), s.now);
      forall w | w in s.held
        ensures HoldsRightly(Step(s, Arrive(id, payload)), w)
      {
        assert HoldsRightly(s, w);
      }
    }
  }

  lemma TakeIsOrderly(s: Sys, w: nat, id: string)
    requires Orderly(s)
    ensures Orderly(Step(s, Take(w, id)))
  {
    if w !in s.held && id in s.box && Claimable(s.box[id], s.now) {
      OneItemChanges(s.box, id, s.box[id].(status := Processing), s.now);
      forall v | v in s.held
        ensures HoldsRightly(Step(s, Take(w, id)), v) && s.held[v].id != id
      {
        assert HoldsRightly(s, v);
      }
    }
  }

  lemma SettleIsOrderly(s: Sys, w: nat, done: bool, retry: bool)
    requires Orderly(s)
    ensures Orderly(Step(s, Settle(w, done, retry)))
  {
    if w in s.held {
      assert HoldsRightly(s, w);
      var id := s.held[w].id;
      SettleOnTime(s.box[id], s.now);
      OneItemChanges(s.box, id, Settled(s.box, id, s.held[w].attempts, s.now, done, retry)[id], s.now);
      forall v | v in s.held && v != w
        ensures HoldsRightly(Step(s, Settle(w, done, retry)), v)
      {
        assert HoldsRightly(s, v) && s.held[v].id != id;
      }
    }
  }

  lemma StepIsOrderly(s: Sys, e: Event)
    requires Orderly(s)
    ensures Orderly(Step(s, e))
  {
    match e
    case Arrive(id, payload) => ArriveIsOrderly(s, id, payload);
    case Take(w, id) => TakeIsOrderly(s, w, id);
    case Settle(w, done, retry) => SettleIsOrderly(s, w, done, retry);
    case _ =>
  }

  lemma {:induction false} RunsAreOrderly(now: int, es: seq<Event>)
    ensures Orderly(Run(Sys(now, map[], map[]), es))
  {
    if es != [] {
      RunsAreOrderly(now, es[..|es| - 1]);
      StepIsOrderly(Run(Sys(now, map[], map[]), es[..|es| - 1]), es[|es| - 1]);
    }
  }

  /** A completed item stays completed, and no item ever changes its payload or its time of arrival. */
  ghost predicate Lasting(s: Sys, t: Sys) {
    forall id <- s.box ::
      && id in t.box && t.box[id].payload == s.box[id].payload && t.box[id].createdAt == s.box[id].createdAt
      && (s.box[id].status.Completed? ==> t.box[id] == s.box[id])
  }

  lemma StepLasts(s: Sys, e: Event)
    requires Orderly(s)
    ensures Lasting(s, Step(s, e))
  {
    if e.Settle? && e.worker in s.held {
      assert HoldsRightly(s, e.worker);
    }
  }

  lemma {:induction false} CompletedIsForever(s: Sys, es: seq<Event>)
    requires Orderly(s)
    ensures Orderly(Run(s, es)) && Lasting(s, Run(s, es))
  {
    if es != [] {
      CompletedIsForever(s, es[..|es| - 1]);
      StepIsOrderly(Run(s, es[..|es| - 1]), es[|es| - 1]);
      StepLasts(Run(s, es[..|es| - 1]), es[|es| - 1]);
    }
  }

  // ---------- What is handled is done ----------

  /** A worker that handled its item and could say so leaves it completed. */
  lemma SettledIsCompleted(s: Sys, w: nat, retry: bool)
    requires Orderly(s) && w in s.held
    ensures var id, t := s.held[w].id, Step(s, Settle(w, true, retry));
            && id in t.box && t.box[id] == s.box[id].(status := Completed) && w !in t.held
            && forall other <- s.box :: other != id ==> other in t.box && t.box[other] == s.box[other]
  {
    assert HoldsRightly(s, w);
  }

  lemma CompletedIsNotHeld(s: Sys, id: string, w: nat)
    requires Orderly(s) && id in s.box && s.box[id].status.Completed? && w in s.held
    ensures s.held[w].id != id
  {
    assert HoldsRightly(s, w);
  }

  /** From then on, whatever follows, it stays completed and no worker ever holds it again. */
  lemma HandledIsNeverHeldAgain(s: Sys, w: nat, retry: bool, es: seq<Event>)
    requires Orderly(s) && w in s.held
    ensures var id, t := s.held[w].id, Run(Step(s, Settle(w, true, retry)), es);
            id in t.box && t.box[id].status.Completed? && forall v <- t.held :: t.held[v].id != id
  {
    var id, next := s.held[w].id, Step(s, Settle(w, true, retry));
    SettledIsCompleted(s, w, retry);
    StepIsOrderly(s, Settle(w, true, retry));
    CompletedIsForever(next, es);
    var t := Run(next, es);
    forall v | v in t.held
      ensures t.held[v].id != id
    {
      CompletedIsNotHeld(t, id, v);
    }
  }

  /** An event that arrives for the first time waits with its payload, due at once. */
  lemma ArrivalWaits(s: Sys, id: string, payload: string)
    requires id != "" && payload != "" && id !in s.box
    ensures var t := Step(s, Arrive(id, payload));
            && id in t.box && t.box[id].payload == payload && t.box[id].status.Pending? && t.box[id].attempts == 0
            && t.box[id].nextAt == t.box[id].createdAt == s.now
            && forall other <- s.box :: other in t.box && t.box[other] == s.box[other]
  {
  }

  /** A worker that could not handle its item puts it back for exactly the delay of its attempts. */
  lemma RetryWaitsExactly(s: Sys, w: nat)
    requires Orderly(s) && w in s.held
    ensures var id, t := s.held[w].id, Step(s, Settle(w, false, true));
            && id in t.box && t.box[id].status.Pending? && t.box[id].attempts == s.box[id].attempts + 1
            && t.box[id].nextAt == s.now + Pow2(if s.box[id].attempts < 8 then s.box[id].attempts else 8)
  {
    assert HoldsRightly(s, w);
  }

  // ---------- Nothing is lost ----------

  /** Every item being processed is in the hands of a live worker. */
  ghost predicate NoneStranded(s: Sys) {
    forall id <- s.box :: s.box[id].status.Processing? ==> exists w <- s.held :: s.held[w].id == id
  }

  /** A worker can neither complete its item nor put it back; the source drops this second error. */
  predicate Strands(s: Sys, e: Event) { e.Settle? && e.worker in s.held && !e.done && !e.retry }

  lemma StillHeld(s: Sys, id: string, w: nat, claim: Claim)
    requires w !in s.held && exists v <- s.held :: s.held[v].id == id
    ensures var held := s.held[w := claim]; exists v <- held :: held[v].id == id
  {
    var v :| v in s.held && s.held[v].id == id;
    assert s.held[w := claim][v].id == id;
  }

  lemma TakeStrandsNone(s: Sys, w: nat, id: string)
    requires NoneStranded(s)
    ensures NoneStranded(Step(s, Take(w, id)))
  {
    var t := Step(s, Take(w, id));
    if t != s {
      assert t.held[w].id == id;
      forall other | other in s.box && other != id && s.box[other].status.Processing?
        ensures exists v <- t.held :: t.held[v].id == other
      {
        StillHeld(s, other, w, t.held[w]);
      }
    }
  }

  lemma SettleStrandsNone(s: Sys, w: nat, done: bool, retry: bool)
    requires Orderly(s) && NoneStranded(s) && (done || retry) && w in s.held
    ensures NoneStranded(Step(s, Settle(w, done, retry)))
  {
    var t := Step(s, Settle(w, done, retry));
    assert HoldsRightly(s, w);
    forall id | id in t.box && t.box[id].status.Processing?
      ensures exists v <- t.held :: t.held[v].id == id
    {
      assert id != s.held[w].id && id in s.box && s.box[id].status.Processing?;
      var v :| v in s.held && s.held[v].id == id;
      assert v in t.held && t.held[v].id == id;
    }
  }

  lemma ProcessingIsHeld(s: Sys, id: string)
    requires NoneStranded(s) && id in s.box && s.box[id].status.Processing?
    ensures exists w <- s.held :: s.held[w].id == id
  {
  }

  lemma FailedSettleStrands(s: Sys, w: nat)
    requires Orderly(s) && w in s.held
    ensures !NoneStranded(Step(s, Settle(w, false, false)))
  {
    var t := Step(s, Settle(w, false, false));
    assert HoldsRightly(s, w);
    var id := s.held[w].id;
    assert id in t.box && t.box[id].status.Processing?;
    if NoneStranded(t) {
      ProcessingIsHeld(t, id);
    }
  }

  /** One step strands an item exactly when a worker can neither complete nor put back what it holds. */
  lemma StrandsExactly(s: Sys, e: Event)
    requires Orderly(s) && NoneStranded(s)
    ensures NoneStranded(Step(s, e)) <==> !Strands(s, e)
  {
    match e
    case Take(w, id) => TakeStrandsNone(s, w, id);
    case Settle(w, done, retry) =>
      if w in s.held {
        if done || retry {
          SettleStrandsNone(s, w, done, retry);
        } else {
          FailedSettleStrands(s, w);
        }
      }
    case _ =>
  }

  /** The item is being processed, but by nobody. */
  ghost predicate IsStranded(s: Sys, id: string) {
    id in s.box && s.box[id].status.Processing? && forall w <- s.held :: s.held[w].id != id
  }

  /** No step but a restart frees a stranded item. */
  lemma StrandedStays(s: Sys, e: Event, id: string)
    requires IsStranded(s, id) && !e.Restart?
    ensures IsStranded(Step(s, e), id)
  {
  }

  lemma StrandedIs(s: Sys)
    ensures NoneStranded(s) <==> forall id :: !IsStranded(s, id)
  {
    if !NoneStranded(s) {
      var id :| id in s.box && s.box[id].status.Processing? && !(exists w <- s.held :: s.held[w].id == id);
      assert IsStranded(s, id);
    }
    if id :| IsStranded(s, id) {
      if NoneStranded(s) {
        ProcessingIsHeld(s, id);
      }
    }
  }

  lemma StaysStranded(s: Sys, e: Event)
    requires !NoneStranded(s) && !e.Restart?
    ensures !NoneStranded(Step(s, e))
  {
    StrandedIs(s);
    var id :| IsStranded(s, id);
    StrandedStays(s, e, id);
    StrandedIs(Step(s, e));
  }

  /** Event k strands an item and no restart follows it. */
  predicate LeavesStranded(s: Sys, es: seq<Event>, k: nat) {
    k < |es| && Strands(Run(s, es[..k]), es[k]) && forall j :: k < j < |es| ==> !es[j].Restart?
  }

  lemma LeavesStrandedSnoc(s: Sys, es: seq<Event>, e: Event, k: nat)
    requires k < |es|
    ensures LeavesStranded(s, es + [e], k) <==> LeavesStranded(s, es, k) && !e.Restart?
  {
    var more := es + [e];
    assert more[..k] == es[..k] && more[k] == es[k];
    assert forall j :: k < j < |es| ==> more[j] == es[j];
    assert more[|es|] == e;
  }

  lemma LeavesStrandedLast(s: Sys, es: seq<Event>, e: Event)
    ensures LeavesStranded(s, es + [e], |es|) <==> Strands(Run(s, es), e)
  {
    assert (es + [e])[..|es|] == es;
  }

  lemma LeftStrandedSnoc(s: Sys, es: seq<Event>, e: Event)
    ensures (exists k: nat :: LeavesStranded(s, es + [e], k)) <==>
            Strands(Run(s, es), e) || (!e.Restart? && exists k: nat :: LeavesStranded(s, es, k))
  {
    LeavesStrandedLast(s, es, e);
    if k: nat :| LeavesStranded(s, es + [e], k) {
      if k < |es| {
        LeavesStrandedSnoc(s, es, e, k);
      }
    }
    if !e.Restart? {
      if k: nat :| LeavesStranded(s, es, k) {
        LeavesStrandedSnoc(s, es, e, k);
      }
    }
  }

  /**
   After a run every item is completed, pending, or held by a live worker, exactly unless some
   worker could neither complete its item nor put it back and there was no restart since.
   */
  lemma {:induction false} ItemsAreNotLost(s: Sys, es: seq<Event>)
    requires Orderly(s) && NoneStranded(s)
    ensures Orderly(Run(s, es))
    ensures NoneStranded(Run(s, es)) <==> !exists k: nat :: LeavesStranded(s, es, k)
  {
    if es != [] {
      var front, e := es[..|es| - 1], es[|es| - 1];
      assert es == front + [e];
      ItemsAreNotLost(s, front);
      var t := Run(s, front);
      StepIsOrderly(t, e);
      LeftStrandedSnoc(s, front, e);
      if NoneStranded(t) {
        StrandsExactly(t, e);
      } else if !e.Restart? {
        StaysStranded(t, e);
      }
    }
  }

  /**
   The stuck input: an event arrives, a worker takes it, and neither its completion nor its retry
   can be stored. Whatever follows, the item waits for a restart.
   */
  lemma AnItemGetsStuck(id: string, payload: string, w: nat, more: seq<Event>)
    requires id != "" && payload != "" && forall e <- more :: !e.Restart?
    ensures var t := Run(Sys(0, map[], map[]), [Arrive(id, payload), Take(w, id), Settle(w, false, false)]);
            IsStranded(t, id) && IsStranded(Run(t, more), id)
  {
    var s := Sys(0, map[], map[]);
    var es := [Arrive(id, payload), Take(w, id), Settle(w, false, false)];
    var item := Item(payload, Pending, 0, 0, 0);
    RunStep(s, es, 0, s.(box := map[id := item]));
    RunStep(s, es, 1, Sys(0, map[id := item.(status := Processing)], map[w := Claim(id, payload, 0)]));
    RunStep(s, es, 2, Sys(0, map[id := item.(status := Processing)], map[]));
    assert es[..3] == es;
    StaysStuck(Run(s, es), more, id);
  }

  lemma RunStep(s: Sys, es: seq<Event>, k: nat, t: Sys)
    requires k < |es| && Step(Run(s, es[..k]), es[k]) == t
    ensures Run(s, es[..k + 1]) == t
  {
    assert es[..k + 1][..k] == es[..k];
  }

  lemma {:induction false} StaysStuck(s: Sys, es: seq<Event>, id: string)
    requires IsStranded(s, id) && forall e <- es :: !e.Restart?
    ensures IsStranded(Run(s, es), id)
  {
    if es != [] {
      var last := |es| - 1;
      assert es[last] in es;
      assert forall e <- es[..last] :: e in es;
      StaysStuck(s, es[..last], id);
      StrandedStays(Run(s, es[..last]), es[last], id);
    }
  }

  /** And a restart frees whatever was stranded: what is not completed is pending again, with the attempts it had. */
  lemma RestartFrees(s: Sys, id: string)
    requires id in s.box
    ensures var t := Step(s, Restart);
            && NoneStranded(t) && id in t.box
            && (s.box[id].status.Completed? ==> t.box[id] == s.box[id])
            && (!s.box[id].status.Completed? ==> t.box[id] == s.box[id].(status := Pending))
  {
  }

  /** A worker's turn is a take and a settlement with nothing in between. */
  lemma TurnIsTakeAndSettle(s: Sys, w: nat, id: string, done: bool, retry: bool)
    requires w !in s.held && id in s.box && Claimable(s.box[id], s.now)
    ensures Run(s, [Take(w, id), Settle(w, done, retry)]) ==
            s.(box := Settled(WithStatus(s.box, id, Processing), id, s.box[id].attempts, s.now, done, retry))
  {
    var es := [Take(w, id), Settle(w, done, retry)];
    assert es[..1] == [Take(w, id)] && [Take(w, id)][..0] == [];
    assert Run(s, [Take(w, id)]) == Step(s, Take(w, id));
    assert s.held[w := Claim(id, s.box[id].payload, s.box[id].attempts)] - {w} == s.held;
  }
}
