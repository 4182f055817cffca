/**
 One-time tokens over whole runs: what each accepted consume put into the ledger.
 */
module TokenHistory {
  import opened Options
  import opened Ledger
  import opened LedgerRuns

  /** An accepted consume: the token, its owner, and the rows `first`, `first + 1`, ... it inserted. */
  datatype Batch = Batch(hash: string, openId: string, first: nat, targets: seq<string>, at: int) {
    predicate Holds(i: nat) { first <= i < first + |targets| }
  }

  function NewBatches(s: Clocked, e: Event): seq<Batch> {
    if e.Do? && e.tx.Consume? && Check(s.books, e.tx, s.now).None? then
      [Batch(e.tx.hash, s.books.tokens[e.tx.hash].openId, |s.books.grants|, Distinct(e.tx.ips), s.now)]
    else []
  }

  /** The accepted consumes of a run, in order. */
  function Batches(s: Clocked, es: seq<Event>): seq<Batch> {
    if es == [] then []
    else Batches(s, es[..|es| - 1]) + NewBatches(After(s, es[..|es| - 1]), es[|es| - 1])
  }

  /** Only a consumed link writes rows with source feishu_link; the callers of the store keep to this. */
  predicate Sourced(e: Event) {
    e.Do? ==> match e.tx
      case AddGrant(g, _) => g.source != FeishuLink
      case CreateAdmin(_, g) => g.source != FeishuLink
      case _ => true
  }

  /** The rows of a batch: one for each distinct address, all for the owner of the token. */
  ghost predicate Recorded(b: Books, batch: Batch) {
    && batch.hash in b.tokens && b.tokens[batch.hash].usedAt == Some(batch.at)
    && b.tokens[batch.hash].openId == batch.openId && batch.at <= b.tokens[batch.hash].expiresAt
    && batch.targets != [] && batch.first + |batch.targets| <= |b.grants|
    && (forall i, j :: 0 <= i < j < |batch.targets| ==> batch.targets[i] != batch.targets[j])
    && forall i: nat :: batch.Holds(i) ==> IsLinkRow(b.grants[i], batch, i)
  }

  predicate IsLinkRow(g: Grant, batch: Batch, i: nat)
    requires batch.Holds(i)
  {
    g.source == FeishuLink && g.openId == batch.openId && g.createdAt == batch.at && g.ip == batch.targets[i - batch.first]
  }

  /** Each token at most one batch, batches in disjoint ranges of rows. */
  ghost predicate Separate(bs: seq<Batch>) {
    forall j, k :: 0 <= j < k < |bs| ==>
      bs[j].hash != bs[k].hash && bs[j].first + |bs[j].targets| <= bs[k].first
  }

  /** Every used token has its batch, and so has every row that came from a link. */
  ghost predicate Accounted(b: Books, bs: seq<Batch>) {
    && (forall h <- b.tokens :: b.tokens[h].usedAt.Some? ==> exists k :: 0 <= k < |bs| && bs[k].hash == h)
    && forall i :: 0 <= i < |b.grants| && b.grants[i].source == FeishuLink ==>
         exists k :: 0 <= k < |bs| && bs[k].Holds(i)
  }

  ghost predicate Conserved(b: Books, bs: seq<Batch>) {
    Separate(bs) && Accounted(b, bs) && forall k :: 0 <= k < |bs| ==> Recorded(b, bs[k])
  }

  lemma RecordedStays(s: Clocked, e: Event, batch: Batch)
    requires Recorded(s.books, batch)
    ensures Recorded(Step(s, e).books, batch)
  {
    StepGrows(s, e);
    TokenStays(s, e, batch.hash);
    forall i: nat | batch.Holds(i)
      ensures IsLinkRow(Step(s, e).books.grants[i], batch, i)
    {
      assert IsLinkRow(s.books.grants[i], batch, i);
    }
  }

  lemma TokenStays(s: Clocked, e: Event, h: string)
    requires h in s.books.tokens
    ensures var b := Step(s, e).books;
            && h in b.tokens && b.tokens[h].openId == s.books.tokens[h].openId
            && b.tokens[h].expiresAt == s.books.tokens[h].expiresAt
            && (s.books.tokens[h].usedAt.Some? ==> b.tokens[h].usedAt == s.books.tokens[h].usedAt)
  {
  }

  lemma NewBatchIsRecorded(s: Clocked, e: Event)
    requires NewBatches(s, e) != []
    ensures Recorded(Step(s, e).books, NewBatches(s, e)[0])
    ensures s.books.tokens[e.tx.hash].usedAt.None?
  {
    var t := s.books.tokens[e.tx.hash];
    var targets := Distinct(e.tx.ips);
    var batch := NewBatches(s, e)[0];
    var b := Step(s, e).books;
    ConsumeRefusedExactly(s.books, e.tx.hash, e.tx.ips, e.tx.max, s.now);
    assert b.grants == s.books.grants + LinkGrants(t, targets, s.now);
    forall i: nat | batch.Holds(i)
      ensures IsLinkRow(b.grants[i], batch, i)
    {
      assert b.grants[i] == LinkGrants(t, targets, s.now)[i - batch.first];
    }
  }

  lemma NewLinkRows(s: Clocked, e: Event, i: nat)
    requires Sourced(e)
    requires i < |Step(s, e).books.grants| && Step(s, e).books.grants[i].source == FeishuLink
    ensures (i < |s.books.grants| && s.books.grants[i].source == FeishuLink)
         || (NewBatches(s, e) != [] && NewBatches(s, e)[0].Holds(i))
  {
    StepGrows(s, e);
  }

  lemma NewlyUsed(s: Clocked, e: Event, h: string)
    requires h in Step(s, e).books.tokens && Step(s, e).books.tokens[h].usedAt.Some?
    ensures (h in s.books.tokens && s.books.tokens[h].usedAt.Some?)
         || (NewBatches(s, e) != [] && NewBatches(s, e)[0].hash == h)
  {
  }

  lemma AccountedStays(s: Clocked, e: Event, bs: seq<Batch>)
    requires Accounted(s.books, bs) && Sourced(e)
    ensures Accounted(Step(s, e).books, bs + NewBatches(s, e))
  {
    var bs' := bs + NewBatches(s, e);
    var b := Step(s, e).books;
    assert NewBatches(s, e) != [] ==> bs'[|bs|] == NewBatches(s, e)[0];
    forall h | h in b.tokens && b.tokens[h].usedAt.Some?
      ensures exists k :: 0 <= k < |bs'| && bs'[k].hash == h
    {
      NewlyUsed(s, e, h);
      if h in s.books.tokens && s.books.tokens[h].usedAt.Some? {
        var k :| 0 <= k < |bs| && bs[k].hash == h;
        assert bs'[k].hash == h;
      }
    }
    forall i | 0 <= i < |b.grants| && b.grants[i].source == FeishuLink
      ensures exists k :: 0 <= k < |bs'| && bs'[k].Holds(i)
    {
      NewLinkRows(s, e, i);
      if i < |s.books.grants| && s.books.grants[i].source == FeishuLink {
        var k :| 0 <= k < |bs| && bs[k].Holds(i);
        assert bs'[k].Holds(i);
      }
    }
  }

  lemma ConservedStays(s: Clocked, e: Event, bs: seq<Batch>)
    requires Conserved(s.books, bs) && Sourced(e)
    ensures Conserved(Step(s, e).books, bs + NewBatches(s, e))
  {
    AccountedStays(s, e, bs);
    forall k | 0 <= k < |bs|
      ensures Recorded(Step(s, e).books, bs[k])
    {
      RecordedStays(s, e, bs[k]);
    }
    if NewBatches(s, e) != [] {
      NewBatchIsRecorded(s, e);
    }
  }

  /**
   In every run from an empty ledger each token yields at most one batch of link rows, one
   row for each distinct address and all for its owner, and there are no other link rows.
   */
  lemma {:induction false} TokensAreConserved(now: int, es: seq<Event>)
    requires forall e <- es :: Sourced(e)
    ensures Conserved(After(Clocked(now, EMPTY), es).books, Batches(Clocked(now, EMPTY), es))
  {
    if es != [] {
      var last := |es| - 1;
      assert es[last] in es;
      assert forall e <- es[..last] :: e in es;
      TokensAreConserved(now, es[..last]);
      ConservedStays(After(Clocked(now, EMPTY), es[..last]), es[last], Batches(Clocked(now, EMPTY), es[..last]));
    }
  }
}
