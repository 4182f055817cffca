/**
 The durable outbox of replies: one flusher loads what is due, sends it, and marks it sent
 or puts it off.
 */
module Outbox {
  import opened Options
  import opened Backoff

  datatype Row = Row(chat: string, body: string, attempts: nat, nextAt: int, createdAt: int, sentAt: Option<int>)

  type Rows = map<string, Row>

  datatype Message = Message(id: string, chat: string, body: string, attempts: nat)

  /** INSERT, or an update of chat and body while the reply is not sent. */
  function Enqueued(rows: Rows, id: string, chat: string, body: string, now: int): Rows {
    if id == "" || chat == "" then rows
    else if id !in rows then rows[id := Row(chat, body, 0, now, now, None)]
    else if rows[id].sentAt.None? then rows[id := rows[id].(chat := chat, body := body)]
    else rows
  }

  predicate Due(r: Row, now: int) { r.sentAt.None? && r.nextAt <= now }

  function MarkedSent(rows: Rows, id: string, now: int): Rows {
    if id in rows then rows[id := rows[id].(sentAt := Some(now))] else rows
  }

  function PutOff(rows: Rows, id: string, attempts: nat, now: int): Rows {
    if id in rows && rows[id].sentAt.None? then
      rows[id := rows[id].(attempts := rows[id].attempts + 1, nextAt := now + Delay(attempts))]
    else rows
  }

  /** What sending one message does: marked when it went out, put off when it did not; `db` is whether that is recorded. */
  function Flushed(rows: Rows, m: Message, now: int, sent: bool, db: bool): Rows {
    if !db then rows else if sent then MarkedSent(rows, m.id, now) else PutOff(rows, m.id, m.attempts, now)
  }

  function FlushedAll(rows: Rows, ms: seq<Message>, now: int, sends: string -> bool, db: string -> bool): Rows {
    if ms == [] then rows
    else
      var m := ms[|ms| - 1];
      Flushed(FlushedAll(rows, ms[..|ms| - 1], now, sends, db), m, now, sends(m.id), db(m.id))
  }

  predicate IsMessage(rows: Rows, m: Message) {
    m.id in rows && m == Message(m.id, rows[m.id].chat, rows[m.id].body, rows[m.id].attempts)
  }

  /** No message twice, each no younger than the next. */
  ghost predicate OldestFirst(rows: Rows, ms: seq<Message>) {
    forall i, j :: 0 <= i < j < |ms| ==>
      && ms[i].id != ms[j].id && ms[i].id in rows && ms[j].id in rows
      && rows[ms[i].id].createdAt <= rows[ms[j].id].createdAt
  }

  predicate Listed(ms: seq<Message>, id: string) { exists m <- ms :: m.id == id }

  predicate NoneYounger(rows: Rows, ms: seq<Message>, id: string) {
    id in rows && forall m <- ms :: m.id in rows && rows[m.id].createdAt <= rows[id].createdAt
  }

  /** Due replies, oldest first, up to `most` of them; none that is left behind is older. */
  ghost predicate IsBatch(rows: Rows, now: int, most: nat, ms: seq<Message>) {
    && |ms| <= most && OldestFirst(rows, ms)
    && (forall i :: 0 <= i < |ms| ==> IsMessage(rows, ms[i]) && Due(rows[ms[i].id], now))
    && forall id <- rows :: Due(rows[id], now) ==> Listed(ms, id) || (|ms| == most && NoneYounger(rows, ms, id))
  }

  /** Some due replies were picked; of those that were not, none is older. */
  ghost predicate Picked(rows: Rows, now: int, ms: seq<Message>, todo: set<string>) {
    && (forall id <- todo :: id in rows && Due(rows[id], now) && NoneYounger(rows, ms, id))
    && (forall i :: 0 <= i < |ms| ==> IsMessage(rows, ms[i]) && Due(rows[ms[i].id], now) && ms[i].id !in todo)
    && OldestFirst(rows, ms)
    && forall id <- rows :: Due(rows[id], now) ==> Listed(ms, id) || id in todo
  }

  /** What a batch is: due replies with what is stored for them, oldest first; one that is due is left out only behind a full batch of older ones. */
  lemma BatchIs(rows: Rows, now: int, most: nat, ms: seq<Message>)
    ensures IsBatch(rows, now, most, ms) <==>
            && |ms| <= most
            && (forall i :: 0 <= i < |ms| ==>
                  && ms[i].id in rows && rows[ms[i].id].sentAt.None? && rows[ms[i].id].nextAt <= now
                  && ms[i] == Message(ms[i].id, rows[ms[i].id].chat, rows[ms[i].id].body, rows[ms[i].id].attempts))
            && (forall i, j :: 0 <= i < j < |ms| ==> ms[i].id != ms[j].id && rows[ms[i].id].createdAt <= rows[ms[j].id].createdAt)
            && forall id <- rows :: rows[id].sentAt.None? && rows[id].nextAt <= now ==>
                 || (exists m <- ms :: m.id == id)
                 || (|ms| == most && forall m <- ms :: rows[m.id].createdAt <= rows[id].createdAt)
  {
  }

  lemma PickOldest(rows: Rows, now: int, ms: seq<Message>, todo: set<string>, m: Message)
    requires Picked(rows, now, ms, todo) && m.id in todo && IsMessage(rows, m)
    requires forall id <- todo :: rows[m.id].createdAt <= rows[id].createdAt
    ensures Picked(rows, now, ms + [m], todo - {m.id})
  {
    forall id | id in todo - {m.id}
      ensures NoneYounger(rows, ms + [m], id)
    {
      assert NoneYounger(rows, ms, id);
    }
    assert NoneYounger(rows, ms, m.id);
    forall id | id in rows && Due(rows[id], now)
      ensures Listed(ms + [m], id) || id in todo - {m.id}
    {
      ListedStays(ms, m, id);
    }
  }

  lemma ListedStays(ms: seq<Message>, m: Message, id: string)
    ensures Listed(ms + [m], id) <==> Listed(ms, id) || id == m.id
  {
    if id == m.id {
      assert m in ms + [m];
    } else if Listed(ms, id) {
      var n :| n in ms && n.id == id;
      assert n in ms + [m];
    }
  }

  class OutboxStore {
    var rows: Rows

    constructor ()
      ensures rows == map[]
    {
      rows := map[];
    }

    method EnqueueReply(id: string, chat: string, body: string, now: int, db: bool) returns (ok: bool)
      modifies this
      ensures rows == if db then Enqueued(old(rows), id, chat, body, now) else old(rows)
      ensures ok <==> db && id != "" && chat != ""
      ensures !ok ==> rows == old(rows)
      ensures ok && id !in old(rows) ==>
                rows == old(rows)[id := Row(chat, body, 0, now, now, None)]
      ensures ok && id in old(rows) ==>
                var r := old(rows)[id];
                rows == old(rows)[id := if r.sentAt.None? then r.(chat := chat, body := body) else r]
    {
      if id == "" || chat == "" {
        return false;
      }
      if db {
        if id !in rows {
          rows := rows[id := Row(chat, body, 0, now, now, None)];
        } else if rows[id].sentAt.None? {
          var r := rows[id];
          rows := rows[id := Row(chat, body, r.attempts, r.nextAt, r.createdAt, None)];
        }
      }
      return db;
    }

    /** The oldest due replies, oldest first. */
    method PendingReplies(limit: int, now: int) returns (ms: seq<Message>)
      ensures IsBatch(rows, now, if limit <= 0 then 20 else limit, ms)
      ensures |ms| < (if limit <= 0 then 20 else limit) ==> forall id <- rows :: rows[id].sentAt.None? && rows[id].nextAt <= now ==> Listed(ms, id)
    {
      var most := if limit <= 0 then 20 else limit;
      ms := [];
      var todo := set id <- rows | Due(rows[id], now);
      while todo != {} && |ms| < most
        invariant |ms| <= most && Picked(rows, now, ms, todo)
        decreases todo
      {
        var id := Oldest(todo);
        var m := Message(id, rows[id].chat, rows[id].body, rows[id].attempts);
        PickOldest(rows, now, ms, todo, m);
        todo := todo - {id};
        ms := ms + [m];
      }
    }

    method Oldest(ids: set<string>) returns (oldest: string)
      requires ids != {} && ids <= rows.Keys
      ensures oldest in ids && forall id <- ids :: rows[oldest].createdAt <= rows[id].createdAt
    {
      oldest :| oldest in ids;
      var todo := ids - {oldest};
      while todo != {}
        invariant todo <= ids && oldest in ids
        invariant forall id <- ids - todo :: rows[oldest].createdAt <= rows[id].createdAt
      {
        var id :| id in todo;
        todo := todo - {id};
        if rows[id].createdAt < rows[oldest].createdAt {
          oldest := id;
        }
      }
    }

    method MarkReplySent(id: string, now: int, db: bool)
      modifies this
      ensures rows == if db then MarkedSent(old(rows), id, now) else old(rows)
      ensures rows == if db && id in old(rows) then old(rows)[id := old(rows)[id].(sentAt := Some(now))] else old(rows)
    {
      if db && id in rows {
        var r := rows[id];
        rows := rows[id := Row(r.chat, r.body, r.attempts, r.nextAt, r.createdAt, Some(now))];
      }
    }

    method RetryReply(id: string, attempts: nat, now: int, db: bool)
      modifies this
      ensures rows == if db then PutOff(old(rows), id, attempts, now) else old(rows)
      ensures rows == if db && id in old(rows) && old(rows)[id].sentAt.None? then
                        old(rows)[id := old(rows)[id].(attempts := old(rows)[id].attempts + 1,
                                                       nextAt := now + Pow2(if attempts < 8 then attempts else 8))]
                      else old(rows)
    {
      if db && id in rows && rows[id].sentAt.None? {
        var r := rows[id];
        var wait := Pow2(if attempts < 8 then attempts else 8);
        rows := rows[id := Row(r.chat, r.body, r.attempts + 1, now + wait, r.createdAt, None)];
      }
    }

    /** `load` says whether the due replies can be read, `sends` and `db` what becomes of each. */
    method FlushReplies(now: int, load: bool, sends: string -> bool, db: string -> bool) returns (ms: seq<Message>)
      modifies this
      ensures !load ==> ms == []
      ensures load ==> IsBatch(old(rows), now, 20, ms)
      ensures rows == FlushedAll(old(rows), ms, now, sends, db)
    {
      if !load {
        return [];
      }
      ms := PendingReplies(20, now);
      for k := 0 to |ms|
        invariant rows == FlushedAll(old(rows), ms[..k], now, sends, db)
      {
        assert ms[..k + 1][..k] == ms[..k];
        var m := ms[k];
        if sends(m.id) {
          MarkReplySent(m.id, now, db(m.id));
        } else {
          RetryReply(m.id, m.attempts, now, db(m.id));
        }
      }
      assert ms[..|ms|] == ms;
    }
  }

  // ---------- Runs ----------

  /** `batch` is what the flusher has loaded and not yet sent. */
  datatype Sys = Sys(now: int, rows: Rows, batch: seq<Message>)

  datatype Event =
    | Tick
    | Put(id: string, chat: string, body: string)
    | Load(ids: seq<string>)
    | SendFirst(sent: bool, db: bool)
    | Restart

  predicate CanLoad(s: Sys, ids: seq<string>) {
    && s.batch == []
    && (forall i :: 0 <= i < |ids| ==> ids[i] in s.rows && Due(s.rows[ids[i]], s.now))
    && (forall i, j :: 0 <= i < j < |ids| ==> ids[i] != ids[j])
  }

  function Step(s: Sys, e: Event): Sys {
    match e
    case Tick => s.(now := s.now + 1)
    case Put(id, chat, body) => s.(rows := Enqueued(s.rows, id, chat, body, s.now))
    case Load(ids) =>
      if CanLoad(s, ids) then
        s.(batch := seq(|ids|, i requires 0 <= i < |ids| =>
             Message(ids[i], s.rows[ids[i]].chat, s.rows[ids[i]].body, s.rows[ids[i]].attempts)))
      else s
    case SendFirst(sent, db) =>
      if s.batch == [] then s
      else s.(rows := Flushed(s.rows, s.batch[0], s.now, sent, db), batch := s.batch[1..])
    case Restart => s.(batch := [])
  }

  function Run(s: Sys, es: seq<Event>): Sys {
    if es == [] then s else Step(Run(s, es[..|es| - 1]), es[|es| - 1])
  }

  /** Loaded messages are still due with the attempts they were loaded with. */
  predicate Loaded(s: Sys, m: Message) {
    m.id in s.rows && s.rows[m.id].attempts == m.attempts && s.rows[m.id].nextAt <= s.now && s.rows[m.id].sentAt.None?
  }

  ghost predicate Orderly(s: Sys) {
    && (forall id <- s.rows :: s.rows[id].nextAt >= s.rows[id].createdAt + Waited(s.rows[id].attempts))
    && (forall i :: 0 <= i < |s.batch| ==> Loaded(s, s.batch[i]))
    && (forall i, j :: 0 <= i < j < |s.batch| ==> s.batch[i].id != s.batch[j].id)
  }

  lemma StepIsOrderly(s: Sys, e: Event)
    requires Orderly(s)
    ensures Orderly(Step(s, e))
  {
    if e.SendFirst? && s.batch != [] {
      assert Loaded(s, s.batch[0]);
    }
  }

  /** A sent reply never changes its chat or body, and it stays sent. */
  ghost predicate SentStays(s: Sys, t: Sys) {
    forall id <- s.rows :: id in t.rows
      && (s.rows[id].sentAt.Some? ==> t.rows[id] == s.rows[id])
  }

  lemma StepKeepsSent(s: Sys, e: Event)
    requires Orderly(s)
    ensures SentStays(s, Step(s, e))
  {
    if e.SendFirst? && s.batch != [] {
      assert Loaded(s, s.batch[0]);
    }
  }

  /** In every run each put-off reply waits the whole backoff, and what was sent is final. */
  lemma {:induction false} SentIsFinal(s: Sys, es: seq<Event>)
    requires Orderly(s)
    ensures Orderly(Run(s, es)) && SentStays(s, Run(s, es))
  {
    if es != [] {
      SentIsFinal(s, es[..|es| - 1]);
      StepIsOrderly(Run(s, es[..|es| - 1]), es[|es| - 1]);
      StepKeepsSent(Run(s, es[..|es| - 1]), es[|es| - 1]);
    }
  }

  // ---------- What went out and what is stored ----------

  /** Chat and body. */
  datatype Content = Content(chat: string, body: string)

  function ContentOf(r: Row): Content { Content(r.chat, r.body) }

  /** The last accepted EnqueueReply for a reply in a run. */
  function LastPut(es: seq<Event>, id: string): Option<Content> {
    if es == [] then None
    else
      var e := es[|es| - 1];
      if e.Put? && e.id == id && id != "" && e.chat != "" then Some(Content(e.chat, e.body))
      else LastPut(es[..|es| - 1], id)
  }

  lemma StepContent(s: Sys, e: Event, id: string)
    requires id in Step(s, e).rows && Step(s, e).rows[id].sentAt.None?
    requires id in s.rows ==> s.rows[id].sentAt.None?
    ensures if e.Put? && e.id == id && id != "" && e.chat != "" then
              ContentOf(Step(s, e).rows[id]) == Content(e.chat, e.body)
            else id in s.rows && ContentOf(Step(s, e).rows[id]) == ContentOf(s.rows[id])
  {
  }

  lemma UnsentBefore(s: Sys, es: seq<Event>, id: string)
    requires Orderly(s) && es != []
    requires id in Run(s, es).rows && Run(s, es).rows[id].sentAt.None?
    ensures var t := Run(s, es[..|es| - 1]); id in t.rows ==> t.rows[id].sentAt.None?
  {
    var front := es[..|es| - 1];
    SentIsFinal(s, front);
    StepKeepsSent(Run(s, front), es[|es| - 1]);
  }

  /** While a reply is not sent the table holds what was put last, the first time as well. */
  lemma {:induction false} StoredIsLastPut(s: Sys, es: seq<Event>, id: string)
    requires Orderly(s)
    requires id in Run(s, es).rows && Run(s, es).rows[id].sentAt.None?
    ensures LastPut(es, id).None? ==> id in s.rows
    ensures ContentOf(Run(s, es).rows[id]) ==
            if LastPut(es, id).Some? then LastPut(es, id).value else ContentOf(s.rows[id])
  {
    if es != [] {
      UnsentBefore(s, es, id);
      var t, e := Run(s, es[..|es| - 1]), es[|es| - 1];
      StepContent(t, e, id);
      if !(e.Put? && e.id == id && id != "" && e.chat != "") {
        StoredIsLastPut(s, es[..|es| - 1], id);
      }
    }
  }

  /** A new reply is due at once, without attempts. */
  lemma NewReplyIsDue(s: Sys, id: string, chat: string, body: string)
    requires id != "" && chat != "" && id !in s.rows
    ensures var t := Step(s, Put(id, chat, body));
            && id in t.rows && t.rows[id] == Row(chat, body, 0, s.now, s.now, None)
            && forall other <- s.rows :: other in t.rows && t.rows[other] == s.rows[other]
  {
  }

  /** A reply that could not be sent waits for exactly the delay of its attempts. */
  lemma PutOffWaitsExactly(s: Sys)
    requires Orderly(s) && s.batch != []
    ensures var m, t := s.batch[0], Step(s, SendFirst(false, true));
            && m.id in s.rows && m.id in t.rows && t.rows[m.id].attempts == s.rows[m.id].attempts + 1
            && t.rows[m.id].nextAt == s.now + Pow2(if s.rows[m.id].attempts < 8 then s.rows[m.id].attempts else 8)
            && t.rows[m.id].sentAt.None? && ContentOf(t.rows[m.id]) == ContentOf(s.rows[m.id])
  {
    assert Loaded(s, s.batch[0]);
  }

  /**
   What is stored for a reply that was marked sent is what went out exactly when no EnqueueReply
   changed it between loading and marking, and it stays that way.
   */
  lemma SentIsStoredExactly(s: Sys, es: seq<Event>, m: Message, after: seq<Event>)
    requires Orderly(s) && IsMessage(s.rows, m)
    requires Run(s, es).batch != [] && Run(s, es).batch[0] == m
    ensures var marked := Step(Run(s, es), SendFirst(true, true));
            var t := Run(marked, after);
            && m.id in t.rows && t.rows[m.id].sentAt.Some?
            && (ContentOf(t.rows[m.id]) == Content(m.chat, m.body) <==>
                LastPut(es, m.id).None? || LastPut(es, m.id).value == Content(m.chat, m.body))
  {
    var loaded := Run(s, es);
    SentIsFinal(s, es);
    assert Loaded(loaded, loaded.batch[0]);
    StoredIsLastPut(s, es, m.id);
    var marked := Step(loaded, SendFirst(true, true));
    StepIsOrderly(loaded, SendFirst(true, true));
    SentIsFinal(marked, after);
    assert ContentOf(marked.rows[m.id]) == ContentOf(loaded.rows[m.id]);
  }

  // ---------- One flush as a run ----------

  function IdsOf(ms: seq<Message>): seq<string> {
    seq(|ms|, i requires 0 <= i < |ms| => ms[i].id)
  }

  /** Loading what is due, then one sending after the other. */
  function FlushEvents(ms: seq<Message>, k: nat, sends: string -> bool, db: string -> bool): seq<Event>
    requires k <= |ms|
  {
    if k == 0 then [Load(IdsOf(ms))] else FlushEvents(ms, k - 1, sends, db) + [SendFirst(sends(ms[k - 1].id), db(ms[k - 1].id))]
  }

  lemma RunSnoc(s: Sys, es: seq<Event>, e: Event)
    ensures Run(s, es + [e]) == Step(Run(s, es), e)
  {
    assert (es + [e])[..|es|] == es;
  }

  /** The next message is sent. */
  lemma SendsNext(now: int, rows: Rows, ms: seq<Message>, k: nat, sends: string -> bool, db: string -> bool)
    requires 0 < k <= |ms|
    ensures Step(Sys(now, FlushedAll(rows, ms[..k - 1], now, sends, db), ms[k - 1..]),
                 SendFirst(sends(ms[k - 1].id), db(ms[k - 1].id))) ==
            Sys(now, FlushedAll(rows, ms[..k], now, sends, db), ms[k..])
  {
    assert ms[..k][..k - 1] == ms[..k - 1] && ms[k - 1..][0] == ms[k - 1] && ms[k - 1..][1..] == ms[k..];
  }

  lemma LoadsAll(s: Sys, most: nat, ms: seq<Message>)
    requires s.batch == [] && IsBatch(s.rows, s.now, most, ms)
    ensures Run(s, [Load(IdsOf(ms))]) == s.(batch := ms)
  {
    RunSnoc(s, [], Load(IdsOf(ms)));
    assert [] + [Load(IdsOf(ms))] == [Load(IdsOf(ms))];
    assert CanLoad(s, IdsOf(ms));
    assert Step(s, Load(IdsOf(ms))).batch == ms;
  }

  lemma {:induction false} FlushIsARunUpTo(s: Sys, most: nat, ms: seq<Message>, k: nat, sends: string -> bool, db: string -> bool)
    requires s.batch == [] && IsBatch(s.rows, s.now, most, ms) && k <= |ms|
    ensures Run(s, FlushEvents(ms, k, sends, db)) == Sys(s.now, FlushedAll(s.rows, ms[..k], s.now, sends, db), ms[k..])
  {
    if k == 0 {
      LoadsAll(s, most, ms);
      assert ms[0..] == ms;
    } else {
      FlushIsARunUpTo(s, most, ms, k - 1, sends, db);
      RunSnoc(s, FlushEvents(ms, k - 1, sends, db), SendFirst(sends(ms[k - 1].id), db(ms[k - 1].id)));
      SendsNext(s.now, s.rows, ms, k, sends, db);
    }
  }

  /** A flush is a load and one sending for each message, so what holds in every run holds of it. */
  lemma FlushIsARun(s: Sys, most: nat, ms: seq<Message>, sends: string -> bool, db: string -> bool)
    requires s.batch == [] && IsBatch(s.rows, s.now, most, ms)
    ensures Run(s, FlushEvents(ms, |ms|, sends, db)) == s.(rows := FlushedAll(s.rows, ms, s.now, sends, db))
  {
    FlushIsARunUpTo(s, most, ms, |ms|, sends, db);
    assert ms[..|ms|] == ms && ms[|ms|..] == [];
  }
}
