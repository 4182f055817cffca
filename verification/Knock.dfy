/**
 The secret knock before the admin login: hits on a hidden address collect progress, and
 enough of them in quick succession earn a gate that is open for a short time. Counting a
 hit and issuing a gate hold the lock separately, so other requests may come in between.
 Times and the window are nanoseconds.
 */
module Knock {
  import opened Options
  import opened Sets

  const MAX_STATE := 1024

  datatype Progress = Progress(hits: nat, expiresAt: int)

  datatype Config = Config(hits: nat, window: int, ttl: int) {
    /** What New accepts. */
    predicate Valid() { hits >= 2 && window > 0 && ttl > 0 }
  }

  /** A finished knock that waits for its gate: the token it was counted under and its times. */
  datatype Due = Due(token: string, times: seq<int>)

  /** An issued gate: the knock it was issued for, and when it closes. */
  datatype Opening = Opening(knock: Due, until: int)

  /**
   The whole past: knocks of each token, finished knocks without a gate yet, gates ever
   issued, tokens ever drawn, tokens whose knock finished, gates used up.
   */
  datatype History = History(clock: int, knocks: map<string, seq<int>>, due: seq<Due>, openings: map<string, Opening>,
                             drawn: set<string>, spent: set<string>, consumed: set<string>)

  datatype State = State(progress: map<string, Progress>, gates: map<string, int>, past: History)

  datatype Answer = NotFound | Counted(token: string) | Earned | InternalError

  // ---------- What each request does under the lock ----------

  function LiveProgress(progress: map<string, Progress>, now: int): map<string, Progress> {
    map t | t in progress && progress[t].expiresAt > now :: progress[t]
  }

  function LiveGates(gates: map<string, int>, now: int): map<string, int> {
    map g | g in gates && gates[g] > now :: gates[g]
  }

  function Pruned(s: State, now: int): State {
    State(LiveProgress(s.progress, now), LiveGates(s.gates, now), s.past.(clock := now))
  }

  /** One hit under a token that has `hits` already. */
  function Struck(s: State, c: Config, t: string, hits: nat, now: int): (State, Answer) {
    var times := TimesOf(s.past, t, hits) + [now];
    var past := s.past.(knocks := s.past.knocks[t := times], drawn := s.past.drawn + {t});
    if hits + 1 < c.hits then (State(s.progress[t := Progress(hits + 1, now + c.window)], s.gates, past), Counted(t))
    else (State(s.progress - {t}, s.gates, past.(due := past.due + [Due(t, times)], spent := past.spent + {t})), Earned)
  }

  function TimesOf(h: History, t: string, hits: nat): seq<int> {
    if hits > 0 && t in h.knocks then h.knocks[t] else []
  }

  /** `cookie` is the progress token sent along, empty for none; `token` is a new random one. */
  function Hit(s: State, c: Config, cookie: string, now: int, token: Option<string>): (State, Answer) {
    var p := Pruned(s, now);
    if cookie != "" && cookie in p.progress then Struck(p, c, cookie, p.progress[cookie].hits, now)
    else if |p.progress| >= MAX_STATE then (p, NotFound)
    else if token.None? then (p, InternalError)
    else Struck(p, c, token.value, 0, now)
  }

  /** The gate for the finished knock number k. */
  function Issue(s: State, c: Config, k: nat, gate: Option<string>, now: int): (State, bool) {
    if k >= |s.past.due| then (s, false)
    else
      var rest := s.past.due[..k] + s.past.due[k + 1..];
      if gate.None? then (s.(past := s.past.(due := rest)), false)
      else Opened(Pruned(s.(past := s.past.(due := rest)), now), c, s.past.due[k], gate.value, now)
  }

  function Opened(s: State, c: Config, d: Due, gate: string, now: int): (State, bool) {
    if |s.gates| >= MAX_STATE then (s, false)
    else
      (State(s.progress, s.gates[gate := now + c.ttl],
             s.past.(openings := s.past.openings[gate := Opening(d, now + c.ttl)], drawn := s.past.drawn + {gate})),
       true)
  }

  predicate Accepts(s: State, gate: string, now: int) {
    gate in s.gates && s.gates[gate] > now
  }

  function Consumed(s: State, gate: string): State {
    s.(gates := s.gates - {gate},
       past := s.past.(consumed := if gate in s.gates then s.past.consumed + {gate} else s.past.consumed))
  }

  class Guard {
    const cfg: Config
    var progress: map<string, Progress>
    var gates: map<string, int>
    ghost var past: History

    constructor (cfg: Config, start: int)
      requires cfg.Valid()
      ensures this.cfg == cfg && Whole() == Initial(start)
    {
      this.cfg, progress, gates, past := cfg, map[], map[], Initial(start).past;
    }

    ghost function Whole(): State
      reads this
    {
      State(progress, gates, past)
    }

    method Prune(now: int)
      modifies this
      ensures Whole() == Pruned(old(Whole()), now)
    {
      var todo := progress.Keys;
      while todo != {}
        invariant todo <= old(progress).Keys && gates == old(gates) && past == old(past)
        invariant progress == map t | t in old(progress) && (t in todo || old(progress)[t].expiresAt > now) :: old(progress)[t]
      {
        var t :| t in todo;
        todo := todo - {t};
        if progress[t].expiresAt <= now {
          progress := progress - {t};
        }
      }
      var left := gates.Keys;
      while left != {}
        invariant left <= old(gates).Keys && progress == LiveProgress(old(progress), now) && past == old(past)
        invariant gates == map g | g in old(gates) && (g in left || old(gates)[g] > now) :: old(gates)[g]
      {
        var g :| g in left;
        left := left - {g};
        if gates[g] <= now {
          gates := gates - {g};
        }
      }
      past := past.(clock := now);
    }

    /** The part of a knock that counts the hit. */
    method CountHit(cookie: string, now: int, token: Option<string>) returns (a: Answer)
      modifies this
      ensures (Whole(), a) == Hit(old(Whole()), cfg, cookie, now, token)
    {
      Prune(now);
      var t, p := cookie, Progress(0, now + cfg.window);
      if cookie != "" && cookie in progress {
        p := progress[cookie];
      } else {
        if |progress| >= MAX_STATE {
          return NotFound;
        }
        if token.None? {
          return InternalError;
        }
        t := token.value;
      }
      ghost var times := TimesOf(past, t, p.hits) + [now];
      past := past.(knocks := past.knocks[t := times], drawn := past.drawn + {t});
      p := Progress(p.hits + 1, now + cfg.window);
      if p.hits < cfg.hits {
        progress := progress[t := p];
        return Counted(t);
      }
      progress := progress - {t};
      past := past.(due := past.due + [Due(t, times)], spent := past.spent + {t});
      return Earned;
    }

    method IssueGate(ghost k: nat, gate: Option<string>, now: int) returns (ok: bool)
      requires k < |past.due|
      modifies this
      ensures (Whole(), ok) == Issue(old(Whole()), cfg, k, gate, now)
    {
      ghost var d := past.due[k];
      past := past.(due := past.due[..k] + past.due[k + 1..]);
      if gate.None? {
        return false;
      }
      Prune(now);
      if |gates| >= MAX_STATE {
        return false;
      }
      gates := gates[gate.value := now + cfg.ttl];
      past := past.(openings := past.openings[gate.value := Opening(d, now + cfg.ttl)], drawn := past.drawn + {gate.value});
      return true;
    }

    /** A knock that nothing interrupts; `secret` says whether the address was the right one. */
    method KnockDoor(secret: bool, cookie: string, now: int, token: Option<string>, gate: Option<string>, later: int)
      returns (a: Answer)
      modifies this
      ensures !secret ==> a == NotFound && Whole() == old(Whole())
      ensures secret ==>
                var (s, hit) := Hit(old(Whole()), cfg, cookie, now, token);
                if hit.Earned? then
                  var (s', ok) := Issue(s, cfg, |s.past.due| - 1, gate, later);
                  Whole() == s' && a == if ok then Earned else InternalError
                else Whole() == s && a == hit
    {
      if !secret {
        return NotFound;
      }
      a := CountHit(cookie, now, token);
      if a.Earned? {
        var ok := IssueGate(|past.due| - 1, gate, later);
        return if ok then Earned else InternalError;
      }
    }

    method HasGate(gate: string, now: int) returns (ok: bool)
      modifies this
      ensures Whole() == Pruned(old(Whole()), now) && ok == Accepts(old(Whole()), gate, now)
    {
      Prune(now);
      ok := gate in gates && gates[gate] > now;
    }

    method ConsumeGate(gate: string)
      modifies this
      ensures Whole() == Consumed(old(Whole()), gate)
      ensures gates == old(gates) - {gate} && progress == old(progress)
    {
      past := past.(consumed := if gate in gates then past.consumed + {gate} else past.consumed);
      gates := gates - {gate};
    }
  }

  // ---------- Runs ----------

  function Initial(start: int): State {
    State(map[], map[], History(start, map[], [], map[], {}, {}, {}))
  }

  datatype Event =
    | Knocks(cookie: string, now: int, token: Option<string>)
    | Issues(k: nat, drawn: Option<string>, now: int)
    | Asks(gate: string, now: int)
    | Uses(gate: string)

  function Step(s: State, c: Config, e: Event): State {
    match e
    case Knocks(cookie, now, token) => Hit(s, c, cookie, now, token).0
    case Issues(k, drawn, now) => Issue(s, c, k, drawn, now).0
    case Asks(_, now) => Pruned(s, now)
    case Uses(gate) => Consumed(s, gate)
  }

  /** The clock does not run backwards, and random tokens were never drawn before. */
  predicate Fits(s: State, e: Event) {
    match e
    case Knocks(_, now, token) => s.past.clock <= now && (token.Some? ==> token.value !in s.past.drawn)
    case Issues(_, drawn, now) => s.past.clock <= now && (drawn.Some? ==> drawn.value !in s.past.drawn)
    case Asks(_, now) => s.past.clock <= now
    case Uses(_) => true
  }

  function After(s: State, c: Config, es: seq<Event>): State {
    if es == [] then s else Step(After(s, c, es[..|es| - 1]), c, es[|es| - 1])
  }

  predicate IsRun(s: State, c: Config, es: seq<Event>) {
    es == [] || (IsRun(s, c, es[..|es| - 1]) && Fits(After(s, c, es[..|es| - 1]), es[|es| - 1]))
  }

  /** Each time within the window after the one before. */
  predicate Close(times: seq<int>, window: int) {
    forall i :: 0 < i < |times| ==> times[i] < times[i - 1] + window
  }

  /** A token's progress is the number of its knocks, close together, and expires a window after the last. */
  predicate Counts(c: Config, p: Progress, times: seq<int>) {
    && |times| == p.hits && 1 <= p.hits < c.hits && Close(times, c.window)
    && p.expiresAt == times[p.hits - 1] + c.window
  }

  ghost predicate ProgressOk(c: Config, s: State) {
    && |s.progress| <= MAX_STATE
    && forall t <- s.progress :: t in s.past.knocks && Counts(c, s.progress[t], s.past.knocks[t])
  }

  /** A finished knock: as many hits as configured, each within the window after the one before. */
  predicate Finished(c: Config, d: Due) { |d.times| == c.hits && Close(d.times, c.window) }

  ghost predicate KnocksOk(c: Config, s: State) {
    && (forall d <- s.past.due :: Finished(c, d))
    && (forall g <- s.past.openings :: Finished(c, s.past.openings[g].knock))
  }

  /** Every token finishes at most one knock, and every finished knock gets at most one gate. */
  ghost predicate SingleUse(s: State) {
    && s.progress.Keys !! s.past.spent && s.progress.Keys + s.past.spent <= s.past.drawn
    && (forall i :: 0 <= i < |s.past.due| ==> s.past.due[i].token in s.past.spent)
    && (forall g <- s.past.openings :: s.past.openings[g].knock.token in s.past.spent)
    && (forall i, j :: 0 <= i < j < |s.past.due| ==> s.past.due[i].token != s.past.due[j].token)
    && (forall i, g :: 0 <= i < |s.past.due| && g in s.past.openings ==> s.past.due[i].token != s.past.openings[g].knock.token)
    && (forall g, h :: g in s.past.openings && h in s.past.openings && g != h ==>
          s.past.openings[g].knock.token != s.past.openings[h].knock.token)
  }

  /** A gate is there until it is used or its time is over. */
  ghost predicate GatesOk(s: State) {
    && |s.gates| <= MAX_STATE && s.past.openings.Keys <= s.past.drawn && s.past.consumed <= s.past.openings.Keys
    && s.gates.Keys <= s.past.openings.Keys - s.past.consumed
    && (forall g <- s.gates :: s.gates[g] == s.past.openings[g].until)
    && forall g <- s.past.openings :: g in s.gates || g in s.past.consumed || s.past.openings[g].until <= s.past.clock
  }

  lemma PruneOk(c: Config, s: State, now: int)
    requires ProgressOk(c, s) && GatesOk(s) && s.past.clock <= now
    ensures ProgressOk(c, Pruned(s, now)) && GatesOk(Pruned(s, now))
    ensures SingleUse(s) ==> SingleUse(Pruned(s, now))
  {
    SmallerMap(LiveProgress(s.progress, now), s.progress);
    SmallerMap(LiveGates(s.gates, now), s.gates);
  }

  /** A hit may be counted under the token: a new one, or one with unexpired progress. */
  ghost predicate MayStrike(c: Config, s: State, t: string, hits: nat, now: int) {
    if hits == 0 then t !in s.past.drawn && |s.progress| < MAX_STATE
    else t in s.progress && s.progress[t].hits == hits && s.progress[t].expiresAt > now
  }

  lemma TimesAreClose(c: Config, s: State, t: string, hits: nat, now: int)
    requires ProgressOk(c, s) && MayStrike(c, s, t, hits, now)
    ensures var times := TimesOf(s.past, t, hits) + [now];
            |times| == hits + 1 && Close(times, c.window) && times[hits] == now
  {
    if hits > 0 {
      assert Counts(c, s.progress[t], s.past.knocks[t]);
    }
  }

  lemma StruckProgress(c: Config, s: State, t: string, hits: nat, now: int)
    requires ProgressOk(c, s) && MayStrike(c, s, t, hits, now)
    ensures ProgressOk(c, Struck(s, c, t, hits, now).0)
  {
    var times := TimesOf(s.past, t, hits) + [now];
    StruckIs(c, s, t, hits, now);
    if hits + 1 < c.hits {
      CountsNow(c, s, t, hits, now);
      CountedProgress(c, s, Struck(s, c, t, hits, now).0, t, Progress(hits + 1, now + c.window), times);
    } else {
      DroppedProgress(c, s, Struck(s, c, t, hits, now).0, t, times);
    }
  }

  lemma StruckIs(c: Config, s: State, t: string, hits: nat, now: int)
    ensures var s' := Struck(s, c, t, hits, now).0;
            && s'.past.knocks == s.past.knocks[t := TimesOf(s.past, t, hits) + [now]]
            && s'.progress == if hits + 1 < c.hits then s.progress[t := Progress(hits + 1, now + c.window)] else s.progress - {t}
  {
  }

  lemma CountsNow(c: Config, s: State, t: string, hits: nat, now: int)
    requires ProgressOk(c, s) && MayStrike(c, s, t, hits, now) && hits + 1 < c.hits
    ensures Counts(c, Progress(hits + 1, now + c.window), TimesOf(s.past, t, hits) + [now])
    ensures t in s.progress || |s.progress| < MAX_STATE
  {
    TimesAreClose(c, s, t, hits, now);
  }

  lemma CountedProgress(c: Config, s: State, s': State, t: string, p: Progress, times: seq<int>)
    requires ProgressOk(c, s) && Counts(c, p, times) && (t in s.progress || |s.progress| < MAX_STATE)
    requires s'.progress == s.progress[t := p] && s'.past.knocks == s.past.knocks[t := times]
    ensures ProgressOk(c, s')
  {
    if t in s.progress {
      SmallerMap(s'.progress, s.progress);
    }
  }

  lemma DroppedProgress(c: Config, s: State, s': State, t: string, times: seq<int>)
    requires ProgressOk(c, s)
    requires s'.progress == s.progress - {t} && s'.past.knocks == s.past.knocks[t := times]
    ensures ProgressOk(c, s')
  {
    SmallerMap(s'.progress, s.progress);
  }

  lemma StruckKnocks(c: Config, s: State, t: string, hits: nat, now: int)
    requires ProgressOk(c, s) && KnocksOk(c, s) && MayStrike(c, s, t, hits, now) && hits < c.hits
    ensures KnocksOk(c, Struck(s, c, t, hits, now).0)
  {
    TimesAreClose(c, s, t, hits, now);
  }

  lemma StruckSingle(c: Config, s: State, t: string, hits: nat, now: int)
    requires SingleUse(s) && MayStrike(c, s, t, hits, now)
    ensures SingleUse(Struck(s, c, t, hits, now).0)
  {
    assert t !in s.past.spent;
    var s' := Struck(s, c, t, hits, now).0;
    if hits + 1 < c.hits {
      CountedSingle(s, s', t);
    } else {
      SpentSingle(s, s', Due(t, TimesOf(s.past, t, hits) + [now]));
    }
  }

  lemma CountedSingle(s: State, s': State, t: string)
    requires SingleUse(s) && t !in s.past.spent
    requires s'.progress.Keys == s.progress.Keys + {t} && s'.past.drawn == s.past.drawn + {t}
    requires s'.past.spent == s.past.spent && s'.past.due == s.past.due && s'.past.openings == s.past.openings
    ensures SingleUse(s')
  {
  }

  lemma SpentSingle(s: State, s': State, d: Due)
    requires SingleUse(s) && d.token !in s.past.spent
    requires s'.progress.Keys == s.progress.Keys - {d.token} && s'.past.drawn == s.past.drawn + {d.token}
    requires s'.past.spent == s.past.spent + {d.token} && s'.past.due == s.past.due + [d]
    requires s'.past.openings == s.past.openings
    ensures SingleUse(s')
  {
  }

  ghost predicate Ok(c: Config, s: State) {
    ProgressOk(c, s) && KnocksOk(c, s) && SingleUse(s) && GatesOk(s)
  }

  lemma HitOk(c: Config, s: State, cookie: string, now: int, token: Option<string>)
    requires c.Valid() && Ok(c, s) && Fits(s, Knocks(cookie, now, token))
    ensures Ok(c, Hit(s, c, cookie, now, token).0)
  {
    PruneOk(c, s, now);
    var p := Pruned(s, now);
    if cookie != "" && cookie in p.progress {
      StruckOk(c, p, cookie, p.progress[cookie].hits, now);
    } else if |p.progress| < MAX_STATE && token.Some? {
      StruckOk(c, p, token.value, 0, now);
    }
  }

  lemma StruckOk(c: Config, s: State, t: string, hits: nat, now: int)
    requires Ok(c, s) && MayStrike(c, s, t, hits, now) && hits < c.hits
    ensures Ok(c, Struck(s, c, t, hits, now).0)
  {
    StruckProgress(c, s, t, hits, now);
    StruckKnocks(c, s, t, hits, now);
    StruckSingle(c, s, t, hits, now);
  }

  function WithoutDue(s: State, k: nat): State
    requires k < |s.past.due|
  {
    s.(past := s.past.(due := s.past.due[..k] + s.past.due[k + 1..]))
  }

  /** No other finished knock and no gate belongs to the token. */
  ghost predicate Unused(s: State, token: string) {
    && token in s.past.spent
    && (forall d <- s.past.due :: d.token != token)
    && (forall g <- s.past.openings :: s.past.openings[g].knock.token != token)
  }

  lemma WithoutDueOk(c: Config, s: State, k: nat)
    requires Ok(c, s) && k < |s.past.due|
    ensures Ok(c, WithoutDue(s, k)) && Unused(WithoutDue(s, k), s.past.due[k].token) && Finished(c, s.past.due[k])
  {
    var due, rest := s.past.due, WithoutDue(s, k).past.due;
    forall i | 0 <= i < |rest|
      ensures rest[i] == due[if i < k then i else i + 1] && rest[i] in due && rest[i].token != due[k].token
    {
    }
  }

  lemma OpenedOk(c: Config, s: State, d: Due, gate: string, now: int)
    requires Ok(c, s) && Unused(s, d.token) && Finished(c, d) && gate !in s.past.drawn
    ensures Ok(c, Opened(s, c, d, gate, now).0)
  {
    OpenedSingle(c, s, d, gate, now);
    OpenedGates(c, s, d, gate, now);
  }

  lemma OpenedSingle(c: Config, s: State, d: Due, gate: string, now: int)
    requires SingleUse(s) && Unused(s, d.token) && gate !in s.past.drawn
    ensures SingleUse(Opened(s, c, d, gate, now).0)
  {
    if |s.gates| < MAX_STATE {
      OpenedIs(c, s, d, gate, now);
      AssignedSingle(s, Opened(s, c, d, gate, now).0, gate, Opening(d, now + c.ttl));
    }
  }

  lemma OpenedIs(c: Config, s: State, d: Due, gate: string, now: int)
    requires |s.gates| < MAX_STATE
    ensures var s' := Opened(s, c, d, gate, now).0;
            && s'.progress == s.progress && s'.past.spent == s.past.spent && s'.past.due == s.past.due
            && s'.past.drawn == s.past.drawn + {gate}
            && s'.past.openings == s.past.openings[gate := Opening(d, now + c.ttl)]
  {
  }

  lemma AssignedSingle(s: State, s': State, gate: string, o: Opening)
    requires SingleUse(s) && Unused(s, o.knock.token) && s.past.drawn <= s'.past.drawn
    requires s'.progress == s.progress && s'.past.spent == s.past.spent && s'.past.due == s.past.due
    requires s'.past.openings == s.past.openings[gate := o]
    ensures SingleUse(s')
  {
  }

  lemma OpenedGates(c: Config, s: State, d: Due, gate: string, now: int)
    requires GatesOk(s) && gate !in s.past.drawn
    ensures GatesOk(Opened(s, c, d, gate, now).0)
  {
  }

  lemma IssueOk(c: Config, s: State, k: nat, gate: Option<string>, now: int)
    requires Ok(c, s) && Fits(s, Issues(k, gate, now))
    ensures Ok(c, Issue(s, c, k, gate, now).0)
  {
    if k < |s.past.due| {
      var d := s.past.due[k];
      var rest := WithoutDue(s, k);
      WithoutDueOk(c, s, k);
      if gate.Some? {
        PruneOk(c, rest, now);
        OpenedOk(c, Pruned(rest, now), d, gate.value, now);
      }
    }
  }

  lemma ConsumedOk(c: Config, s: State, gate: string)
    requires Ok(c, s)
    ensures Ok(c, Consumed(s, gate))
  {
    assert ProgressOk(c, Consumed(s, gate));
    assert KnocksOk(c, Consumed(s, gate));
    assert SingleUse(Consumed(s, gate));
    ConsumedGates(s, gate);
  }

  lemma ConsumedGates(s: State, gate: string)
    requires GatesOk(s)
    ensures GatesOk(Consumed(s, gate))
  {
    SmallerMap(s.gates - {gate}, s.gates);
  }

  lemma StepOk(c: Config, s: State, e: Event)
    requires c.Valid() && Ok(c, s) && Fits(s, e)
    ensures Ok(c, Step(s, c, e))
  {
    match e
    case Knocks(cookie, now, token) => HitOk(c, s, cookie, now, token);
    case Issues(k, drawn, now) => IssueOk(c, s, k, drawn, now);
    case Asks(_, now) => PruneOk(c, s, now);
    case Uses(gate) => ConsumedOk(c, s, gate);
  }

  /**
   In every run progress counts the knocks of its token, a gate was issued for a finished
   knock of its own, and neither map grows beyond its capacity.
   */
  lemma {:induction false} RunsAreOk(c: Config, start: int, es: seq<Event>)
    requires c.Valid() && IsRun(Initial(start), c, es)
    ensures Ok(c, After(Initial(start), c, es))
  {
    if es != [] {
      RunsAreOk(c, start, es[..|es| - 1]);
      StepOk(c, After(Initial(start), c, es[..|es| - 1]), es[|es| - 1]);
    }
  }

  /** A gate is accepted exactly when a finished knock opened it, it was not used, and its time is not over. */
  lemma AcceptsExactly(c: Config, start: int, es: seq<Event>, gate: string, now: int)
    requires c.Valid() && IsRun(Initial(start), c, es) && Fits(After(Initial(start), c, es), Asks(gate, now))
    ensures var s := After(Initial(start), c, es);
            Accepts(s, gate, now) <==> gate in s.past.openings && gate !in s.past.consumed && now < s.past.openings[gate].until
  {
    RunsAreOk(c, start, es);
  }

  /** Using a gate closes this gate and no other. */
  lemma UseCloses(s: State, gate: string, other: string, now: int)
    ensures Accepts(Consumed(s, gate), other, now) <==> other != gate && Accepts(s, other, now)
    ensures Accepts(s, gate, now) ==> gate in Consumed(s, gate).past.consumed
  {
  }

  /** The record of a gate is final: once used or over, it is never accepted again. */
  lemma {:induction false} ClosedIsForever(c: Config, start: int, es: seq<Event>, more: seq<Event>, gate: string, now: int)
    requires c.Valid() && IsRun(Initial(start), c, es) && IsRun(Initial(start), c, es + more)
    requires Fits(After(Initial(start), c, es + more), Asks(gate, now))
    ensures var s, t := After(Initial(start), c, es), After(Initial(start), c, es + more);
            && s.past.consumed <= t.past.consumed && s.past.clock <= t.past.clock
            && (gate in s.past.openings ==> gate in t.past.openings && t.past.openings[gate] == s.past.openings[gate])
            && (gate in s.past.consumed ==> !Accepts(t, gate, now))
            && (gate in s.past.openings && s.past.openings[gate].until <= s.past.clock ==> !Accepts(t, gate, now))
  {
    HistoryGrows(c, start, es, more);
    AcceptsExactly(c, start, es + more, gate, now);
  }

  ghost predicate Grows(s: State, t: State) {
    && s.past.consumed <= t.past.consumed && s.past.clock <= t.past.clock
    && forall g <- s.past.openings :: g in t.past.openings && t.past.openings[g] == s.past.openings[g]
  }

  lemma StepGrows(c: Config, s: State, e: Event)
    requires Fits(s, e) && s.past.openings.Keys <= s.past.drawn
    ensures Grows(s, Step(s, c, e))
  {
  }

  lemma AfterSnoc(c: Config, start: int, es: seq<Event>, e: Event)
    requires IsRun(Initial(start), c, es + [e])
    ensures IsRun(Initial(start), c, es) && Fits(After(Initial(start), c, es), e)
    ensures After(Initial(start), c, es + [e]) == Step(After(Initial(start), c, es), c, e)
  {
    assert (es + [e])[..|es|] == es;
  }

  lemma GrowsOn(s: State, t: State, u: State)
    requires Grows(s, t) && Grows(t, u)
    ensures Grows(s, u)
  {
  }

  lemma {:induction false} HistoryGrows(c: Config, start: int, es: seq<Event>, more: seq<Event>)
    requires c.Valid() && IsRun(Initial(start), c, es + more)
    ensures Grows(After(Initial(start), c, es), After(Initial(start), c, es + more))
    decreases |more|
  {
    if more == [] {
      assert es + more == es;
    } else {
      var front, e := es + more[..|more| - 1], more[|more| - 1];
      assert es + more == front + [e];
      AfterSnoc(c, start, front, e);
      HistoryGrows(c, start, es, more[..|more| - 1]);
      RunsAreOk(c, start, front);
      StepGrows(c, After(Initial(start), c, front), e);
      GrowsOn(After(Initial(start), c, es), After(Initial(start), c, front), Step(After(Initial(start), c, front), c, e));
    }
  }

  // ---------- What a hit is answered, from the past alone ----------

  /** The last knock of the token was less than a window ago. */
  predicate IsFresh(c: Config, h: History, t: string, now: int) {
    t in h.knocks && h.knocks[t] != [] && now < h.knocks[t][|h.knocks[t]| - 1] + c.window
  }

  /** The tokens whose knock has begun, is not finished, and may still go on. */
  function Underway(c: Config, h: History, now: int): set<string> {
    set t | t in h.knocks && t !in h.spent && IsFresh(c, h, t, now)
  }

  /** A knock has left the progress only when it is finished or can go on no more. */
  predicate IsRemembered(c: Config, s: State, t: string) {
    t in s.past.drawn && (t in s.progress || t in s.past.spent || !IsFresh(c, s.past, t, s.past.clock))
  }

  /** No knock is forgotten before its time. */
  ghost predicate Lasting(c: Config, s: State) {
    forall t <- s.past.knocks :: IsRemembered(c, s, t)
  }

  lemma PruneRemembers(c: Config, s: State, t: string, now: int)
    requires t in s.progress ==> t in s.past.knocks && Counts(c, s.progress[t], s.past.knocks[t])
    requires IsRemembered(c, s, t) && s.past.clock <= now
    ensures IsRemembered(c, Pruned(s, now), t)
  {
  }

  lemma PruneLasting(c: Config, s: State, now: int)
    requires ProgressOk(c, s) && Lasting(c, s) && s.past.clock <= now
    ensures Lasting(c, Pruned(s, now))
  {
    forall t | t in s.past.knocks
      ensures IsRemembered(c, Pruned(s, now), t)
    {
      PruneRemembers(c, s, t, now);
    }
  }

  lemma StruckLasting(c: Config, s: State, t: string, hits: nat, now: int)
    requires Lasting(c, s)
    ensures Lasting(c, Struck(s, c, t, hits, now).0)
  {
  }

  lemma HitLasting(c: Config, s: State, cookie: string, now: int, token: Option<string>)
    requires ProgressOk(c, s) && Lasting(c, s) && s.past.clock <= now
    ensures Lasting(c, Hit(s, c, cookie, now, token).0)
  {
    PruneLasting(c, s, now);
    var p := Pruned(s, now);
    if cookie != "" && cookie in p.progress {
      StruckLasting(c, p, cookie, p.progress[cookie].hits, now);
    } else if token.Some? {
      StruckLasting(c, p, token.value, 0, now);
    }
  }

  lemma LastingOn(c: Config, s: State, s': State)
    requires Lasting(c, s) && s'.progress == s.progress && s.past.drawn <= s'.past.drawn
    requires s'.past.knocks == s.past.knocks && s'.past.spent == s.past.spent && s'.past.clock == s.past.clock
    ensures Lasting(c, s')
  {
  }

  lemma OpenedKeeps(s: State, c: Config, d: Due, gate: string, now: int)
    ensures var s' := Opened(s, c, d, gate, now).0;
            && s'.progress == s.progress && s.past.drawn <= s'.past.drawn && s'.past.knocks == s.past.knocks
            && s'.past.spent == s.past.spent && s'.past.clock == s.past.clock
  {
  }

  lemma IssueLasting(c: Config, s: State, k: nat, gate: Option<string>, now: int)
    requires ProgressOk(c, s) && Lasting(c, s) && s.past.clock <= now
    ensures Lasting(c, Issue(s, c, k, gate, now).0)
  {
    if k < |s.past.due| {
      var rest := WithoutDue(s, k);
      LastingOn(c, s, rest);
      if gate.Some? {
        PruneLasting(c, rest, now);
        OpenedKeeps(Pruned(rest, now), c, s.past.due[k], gate.value, now);
        LastingOn(c, Pruned(rest, now), Opened(Pruned(rest, now), c, s.past.due[k], gate.value, now).0);
      }
    }
  }

  lemma StepLasting(c: Config, s: State, e: Event)
    requires ProgressOk(c, s) && Lasting(c, s) && Fits(s, e)
    ensures Lasting(c, Step(s, c, e))
  {
    match e
    case Knocks(cookie, now, token) => HitLasting(c, s, cookie, now, token);
    case Issues(k, drawn, now) => IssueLasting(c, s, k, drawn, now);
    case Asks(_, now) => PruneLasting(c, s, now);
    case Uses(gate) => LastingOn(c, s, Consumed(s, gate));
  }

  lemma {:induction false} RunsAreLasting(c: Config, start: int, es: seq<Event>)
    requires c.Valid() && IsRun(Initial(start), c, es)
    ensures Lasting(c, After(Initial(start), c, es))
  {
    if es != [] {
      RunsAreLasting(c, start, es[..|es| - 1]);
      RunsAreOk(c, start, es[..|es| - 1]);
      StepLasting(c, After(Initial(start), c, es[..|es| - 1]), es[|es| - 1]);
    }
  }

  lemma TokenIsUnderway(c: Config, s: State, t: string, now: int)
    requires ProgressOk(c, s) && SingleUse(s) && Lasting(c, s) && s.past.clock <= now
    ensures t in LiveProgress(s.progress, now) <==> t in Underway(c, s.past, now)
    ensures t in Underway(c, s.past, now) ==> s.progress[t].hits == |s.past.knocks[t]| < c.hits
  {
    if t in s.progress {
      assert Counts(c, s.progress[t], s.past.knocks[t]);
      assert t !in s.past.spent;
    }
  }

  lemma LiveIsUnderway(c: Config, s: State, now: int)
    requires ProgressOk(c, s) && SingleUse(s) && Lasting(c, s) && s.past.clock <= now
    ensures LiveProgress(s.progress, now).Keys == Underway(c, s.past, now)
  {
    forall t
      ensures t in LiveProgress(s.progress, now) <==> t in Underway(c, s.past, now)
    {
      TokenIsUnderway(c, s, t, now);
    }
  }

  /**
   In every run the answer to a hit follows from the past: a knock under way goes on and
   earns its gate with the last hit that is asked for; any other hit begins a new knock
   while fewer than 1024 are under way.
   */
  lemma AnswersExactly(c: Config, start: int, es: seq<Event>, cookie: string, now: int, token: Option<string>)
    requires c.Valid() && IsRun(Initial(start), c, es) && Fits(After(Initial(start), c, es), Knocks(cookie, now, token))
    ensures var h := After(Initial(start), c, es).past;
            Hit(After(Initial(start), c, es), c, cookie, now, token).1 ==
            if cookie != "" && cookie in Underway(c, h, now) then
              if |h.knocks[cookie]| == c.hits - 1 then Earned else Counted(cookie)
            else if |Underway(c, h, now)| >= 1024 then NotFound
            else if token.None? then InternalError
            else Counted(token.value)
  {
    var s := After(Initial(start), c, es);
    RunsAreLasting(c, start, es);
    RunsAreOk(c, start, es);
    TokenIsUnderway(c, s, cookie, now);
    LiveIsUnderway(c, s, now);
    assert |LiveProgress(s.progress, now)| == |LiveProgress(s.progress, now).Keys|;
  }

  /** What the past holds after a hit: the knock at the end of its token's knocks, or nothing new. */
  ghost predicate Records(c: Config, h: History, h': History, cookie: string, now: int, a: Answer) {
    match a
    case Counted(t) =>
      && h'.knocks == h.knocks[t := (if t in h.knocks then h.knocks[t] else []) + [now]]
      && h'.due == h.due && h'.spent == h.spent
    case Earned =>
      && cookie in h.knocks && h'.knocks == h.knocks[cookie := h.knocks[cookie] + [now]]
      && h'.due == h.due + [Due(cookie, h.knocks[cookie] + [now])] && h'.spent == h.spent + {cookie}
    case _ => h'.knocks == h.knocks && h'.due == h.due && h'.spent == h.spent
  }

  lemma StruckRecords(c: Config, s: State, t: string, hits: nat, now: int)
    requires hits + 1 < c.hits || (hits > 0 && t in s.past.knocks)
    requires hits == 0 ==> t !in s.past.knocks
    ensures var (s', a) := Struck(s, c, t, hits, now); Records(c, s.past, s'.past, t, now, a)
  {
    if hits == 0 {
      assert TimesOf(s.past, t, hits) == [];
    }
  }

  lemma HitRecords(c: Config, s: State, cookie: string, now: int, token: Option<string>)
    requires c.Valid() && ProgressOk(c, s) && (token.Some? ==> token.value !in s.past.knocks)
    ensures var (s', a) := Hit(s, c, cookie, now, token); Records(c, s.past, s'.past, cookie, now, a)
  {
    var p := Pruned(s, now);
    if cookie != "" && cookie in p.progress {
      assert Counts(c, s.progress[cookie], s.past.knocks[cookie]);
      StruckRecords(c, p, cookie, p.progress[cookie].hits, now);
    } else if token.Some? {
      StruckRecords(c, p, token.value, 0, now);
    }
  }

  lemma HitIsRecorded(c: Config, start: int, es: seq<Event>, cookie: string, now: int, token: Option<string>)
    requires c.Valid() && IsRun(Initial(start), c, es) && Fits(After(Initial(start), c, es), Knocks(cookie, now, token))
    ensures var s := After(Initial(start), c, es);
            var (s', a) := Hit(s, c, cookie, now, token);
            Records(c, s.past, s'.past, cookie, now, a)
  {
    RunsAreLasting(c, start, es);
    RunsAreOk(c, start, es);
    HitRecords(c, After(Initial(start), c, es), cookie, now, token);
  }

  /** The gates that are open: issued, not used, and their time not over. */
  function OpenGates(h: History, now: int): set<string> {
    set g | g in h.openings && g !in h.consumed && now < h.openings[g].until
  }

  /** A finished knock gets its gate, for the configured time, exactly while fewer than 1024 gates are open. */
  lemma IssuesExactly(c: Config, start: int, es: seq<Event>, k: nat, gate: Option<string>, now: int)
    requires c.Valid() && IsRun(Initial(start), c, es) && Fits(After(Initial(start), c, es), Issues(k, gate, now))
    ensures var s := After(Initial(start), c, es);
            var (s', ok) := Issue(s, c, k, gate, now);
            && (ok <==> k < |s.past.due| && gate.Some? && |OpenGates(s.past, now)| < 1024)
            && IsIssued(c, s.past, s'.past, k, if ok then gate else None, now)
  {
    var s := After(Initial(start), c, es);
    RunsAreOk(c, start, es);
    LiveAreOpen(s, now);
    IssueRecords(c, s, k, gate, now);
  }

  /** The finished knock no longer waits, and the gate, if any, is its own. */
  ghost predicate IsIssued(c: Config, h: History, h': History, k: nat, gate: Option<string>, now: int) {
    && h'.due == (if k < |h.due| then h.due[..k] + h.due[k + 1..] else h.due)
    && h'.openings == (if gate.Some? && k < |h.due| then h.openings[gate.value := Opening(h.due[k], now + c.ttl)] else h.openings)
    && h'.knocks == h.knocks && h'.spent == h.spent && h'.consumed == h.consumed
  }

  lemma IssueRecords(c: Config, s: State, k: nat, gate: Option<string>, now: int)
    ensures var (s', ok) := Issue(s, c, k, gate, now);
            && (ok <==> k < |s.past.due| && gate.Some? && |LiveGates(s.gates, now)| < 1024)
            && IsIssued(c, s.past, s'.past, k, if ok then gate else None, now)
  {
  }

  lemma LiveAreOpen(s: State, now: int)
    requires GatesOk(s) && s.past.clock <= now
    ensures |LiveGates(s.gates, now)| == |OpenGates(s.past, now)|
  {
    assert LiveGates(s.gates, now).Keys == OpenGates(s.past, now);
    assert |LiveGates(s.gates, now)| == |LiveGates(s.gates, now).Keys|;
  }

  // ---------- How long a knock may take ----------

  /** The hits all fall within one window, as the documentation asks for. */
  predicate InOneWindow(c: Config, d: Due) {
    d.times != [] && d.times[|d.times| - 1] - d.times[0] < c.window
  }

  /** All knocks that finished so far, with or without a gate yet. */
  ghost predicate AllInOneWindow(c: Config, s: State) {
    && (forall d <- s.past.due :: InOneWindow(c, d))
    && (forall g <- s.past.openings :: InOneWindow(c, s.past.openings[g].knock))
  }

  lemma {:induction false} NoPause(c: Config, d: Due, k: nat)
    requires c.window == 1 && Finished(c, d) && k < |d.times|
    ensures d.times[k] <= d.times[0]
  {
    if k > 0 {
      NoPause(c, d, k - 1);
    }
  }

  lemma FinishedInOneWindow(c: Config, d: Due)
    requires c.Valid() && Finished(c, d) && (c.hits == 2 || c.window == 1)
    ensures InOneWindow(c, d)
  {
    if c.window == 1 {
      NoPause(c, d, c.hits - 1);
    }
  }

  /** The time of hit number i: two pauses of almost a window each, then no more. */
  function SlowAt(c: Config, i: nat): int {
    if i == 0 then 0 else if i == 1 then c.window - 1 else 2 * (c.window - 1)
  }

  function SlowTimes(c: Config, n: nat): (times: seq<int>)
    ensures |times| == n && forall i :: 0 <= i < n ==> times[i] == SlowAt(c, i)
  {
    if n == 0 then [] else SlowTimes(c, n - 1) + [SlowAt(c, n - 1)]
  }

  function SlowEvents(c: Config, t: string, n: nat): seq<Event> {
    if n == 0 then []
    else if n == 1 then [Knocks("", 0, Some(t))]
    else SlowEvents(c, t, n - 1) + [Knocks(t, SlowAt(c, n - 1), None)]
  }

  /** The state after n hits of the slow knock. */
  function SlowState(c: Config, t: string, n: nat): State
    requires n > 0
  {
    var last := SlowAt(c, n - 1);
    State(map[t := Progress(n, last + c.window)], map[], History(last, map[t := SlowTimes(c, n)], [], map[], {t}, {}, {}))
  }

  lemma FirstHit(c: Config, t: string)
    requires c.hits > 1
    ensures Hit(Initial(0), c, "", 0, Some(t)) == (SlowState(c, t, 1), Counted(t))
  {
    assert LiveProgress(map[], 0) == map[] && LiveGates(map[], 0) == map[];
    assert SlowTimes(c, 0) == [] && SlowTimes(c, 1) == [] + [0];
  }

  /** Until the next hit the progress stays. */
  lemma StillFresh(c: Config, t: string, n: nat)
    requires c.window > 1 && n > 0
    ensures Pruned(SlowState(c, t, n), SlowAt(c, n)) ==
            SlowState(c, t, n).(past := SlowState(c, t, n).past.(clock := SlowAt(c, n)))
  {
    var s := SlowState(c, t, n);
    assert LiveProgress(s.progress, SlowAt(c, n)) == s.progress;
    assert LiveGates(s.gates, SlowAt(c, n)) == s.gates;
  }

  lemma NextHit(c: Config, t: string, n: nat)
    requires c.window > 1 && t != "" && 0 < n && n + 1 < c.hits
    ensures Hit(SlowState(c, t, n), c, t, SlowAt(c, n), None) == (SlowState(c, t, n + 1), Counted(t))
  {
    var s := SlowState(c, t, n);
    StillFresh(c, t, n);
    assert s.progress[t := Progress(n + 1, SlowAt(c, n) + c.window)] == SlowState(c, t, n + 1).progress;
    assert s.past.knocks[t := SlowTimes(c, n + 1)] == SlowState(c, t, n + 1).past.knocks;
    assert {t} + {t} == {t};
  }

  lemma LastHit(c: Config, t: string)
    requires c.window > 1 && t != "" && c.hits > 1
    ensures var (s, a) := Hit(SlowState(c, t, c.hits - 1), c, t, SlowAt(c, c.hits - 1), None);
            a.Earned? && s.past.due == [Due(t, SlowTimes(c, c.hits))]
  {
    StillFresh(c, t, c.hits - 1);
    assert [] + [Due(t, SlowTimes(c, c.hits))] == [Due(t, SlowTimes(c, c.hits))];
  }

  lemma RunSnoc(s: State, c: Config, es: seq<Event>, e: Event)
    ensures IsRun(s, c, es + [e]) <==> IsRun(s, c, es) && Fits(After(s, c, es), e)
    ensures After(s, c, es + [e]) == Step(After(s, c, es), c, e)
  {
    assert (es + [e])[..|es|] == es;
  }

  lemma {:induction false} SlowRun(c: Config, t: string, n: nat)
    requires c.Valid() && c.window > 1 && t != "" && 0 < n < c.hits
    ensures IsRun(Initial(0), c, SlowEvents(c, t, n)) && After(Initial(0), c, SlowEvents(c, t, n)) == SlowState(c, t, n)
  {
    if n == 1 {
      RunSnoc(Initial(0), c, [], Knocks("", 0, Some(t)));
      assert [] + [Knocks("", 0, Some(t))] == SlowEvents(c, t, 1);
      FirstHit(c, t);
    } else {
      SlowRun(c, t, n - 1);
      RunSnoc(Initial(0), c, SlowEvents(c, t, n - 1), Knocks(t, SlowAt(c, n - 1), None));
      NextHit(c, t, n - 1);
    }
  }

  /** With more than two hits and room for a pause a run earns a gate with hits that take longer together than the window. */
  lemma SlowKnockEarns(c: Config, t: string)
    requires c.Valid() && c.hits > 2 && c.window > 1 && t != ""
    ensures IsRun(Initial(0), c, SlowEvents(c, t, c.hits))
    ensures var s := After(Initial(0), c, SlowEvents(c, t, c.hits));
            s.past.due == [Due(t, SlowTimes(c, c.hits))] && !InOneWindow(c, s.past.due[0])
  {
    SlowRun(c, t, c.hits - 1);
    RunSnoc(Initial(0), c, SlowEvents(c, t, c.hits - 1), Knocks(t, SlowAt(c, c.hits - 1), None));
    LastHit(c, t);
  }

  lemma SlowKnockFails(c: Config)
    requires c.Valid() && c.hits > 2 && c.window > 1
    ensures exists es :: IsRun(Initial(0), c, es) && !AllInOneWindow(c, After(Initial(0), c, es))
  {
    SlowKnockEarns(c, "t");
    var es := SlowEvents(c, "t", c.hits);
    assert After(Initial(0), c, es).past.due[0] in After(Initial(0), c, es).past.due;
    assert IsRun(Initial(0), c, es) && !AllInOneWindow(c, After(Initial(0), c, es));
  }

  /**
   Each hit renews the window. So in all runs every finished knock falls within one window exactly
   when two hits are enough, or the window of a single nanosecond leaves no pause at all.
   */
  lemma InOneWindowExactly(c: Config)
    requires c.Valid()
    ensures (forall start, es :: IsRun(Initial(start), c, es) ==> AllInOneWindow(c, After(Initial(start), c, es))) <==>
            c.hits == 2 || c.window == 1
  {
    if c.hits == 2 || c.window == 1 {
      forall start, es | IsRun(Initial(start), c, es)
        ensures AllInOneWindow(c, After(Initial(start), c, es))
      {
        RunsAreOk(c, start, es);
        KnocksInOneWindow(c, After(Initial(start), c, es));
      }
    } else {
      SlowKnockFails(c);
    }
  }

  lemma KnocksInOneWindow(c: Config, s: State)
    requires c.Valid() && KnocksOk(c, s) && (c.hits == 2 || c.window == 1)
    ensures AllInOneWindow(c, s)
  {
    forall d | d in s.past.due
      ensures InOneWindow(c, d)
    {
      FinishedInOneWindow(c, d);
    }
    forall g | g in s.past.openings
      ensures InOneWindow(c, s.past.openings[g].knock)
    {
      FinishedInOneWindow(c, s.past.openings[g].knock);
    }
  }
}
