/**
 The access-log poller: it stores the page frps serves and warns when records are missing.
 */
module Ingest {
  import opened Options
  import opened AccessLog
  import opened Sets

  /** The numbers of one instance on a page. */
  datatype Range = Range(min: nat, max: nat, count: nat)

  function Widen(r: Option<Range>, number: nat): Range {
    match r
    case None => Range(number, number, 1)
    case Some(rg) => Range(if number < rg.min then number else rg.min, if number > rg.max then number else rg.max, rg.count + 1)
  }

  function RangeOf(rs: seq<AccessRecord>, instance: string): Option<Range> {
    if rs == [] then None
    else
      var r := rs[|rs| - 1];
      var before := RangeOf(rs[..|rs| - 1], instance);
      if r.instance == instance then Some(Widen(before, r.number)) else before
  }

  /** The warning test for one instance, given the number expected next. */
  predicate Warns(rg: Range, expected: nat) {
    (rg.max >= expected && rg.min > expected) || rg.max - rg.min + 1 > rg.count
  }

  function Expected(c: Option<nat>): nat {
    match c
    case None => 1
    case Some(n) => n + 1
  }

  predicate Identified(r: AccessRecord) { r.instance != "" && r.number != 0 }

  ghost predicate WarnedExactly(rows: Rows, rs: seq<AccessRecord>, warned: set<string>) {
    forall instance, c :: IsCursor(rows, instance, c) ==>
      (instance in warned <==> RangeOf(rs, instance).Some? && Warns(RangeOf(rs, instance).value, Expected(c)))
  }

  /** The cursor of every instance on the page can be read. */
  ghost predicate CanRead(rs: seq<AccessRecord>, cursors: string -> bool) {
    forall i :: RangeOf(rs, i).Some? ==> cursors(i)
  }

  datatype Outcome = Stored(inserted: nat) | BadIdentity | CursorFailed | StoreFailed

  class Poller {
    const st: AccessStore

    constructor (st: AccessStore)
      ensures this.st == st
    {
      this.st := st;
    }

    /** `cursors` says for which instances the cursor can be read, `db` whether the insert works. */
    method Store(rs: seq<AccessRecord>, cursors: string -> bool, db: bool) returns (o: Outcome, warned: set<string>)
      modifies st
      ensures !o.Stored? ==> st.rows == old(st.rows)
      ensures o.BadIdentity? <==> exists r <- rs :: r.instance == "" || r.number == 0
      ensures o.CursorFailed? <==> (forall r <- rs :: Identified(r)) && !CanRead(rs, cursors)
      ensures o.StoreFailed? <==> rs != [] && (forall r <- rs :: Identified(r)) && CanRead(rs, cursors) && !db
      ensures o.Stored? ==> st.rows == InsertedAll(old(st.rows), rs) && o.inserted == |st.rows| - |old(st.rows)|
      ensures o.Stored? || o.StoreFailed? ==> WarnedExactly(old(st.rows), rs, warned)
    {
      warned := {};
      if |rs| == 0 {
        return Stored(0), warned;
      }
      var valid, ranges := Ranges(rs);
      if !valid {
        return BadIdentity, warned;
      }
      var read;
      read, warned := CheckGaps(rs, ranges, cursors);
      if !read {
        return CursorFailed, warned;
      }
      var ok, n := st.InsertAccessRecords(rs, db);
      return if ok then Stored(n) else StoreFailed, warned;
    }

    /** The loop over the page. */
    static method Ranges(rs: seq<AccessRecord>) returns (valid: bool, ranges: map<string, Range>)
      ensures valid <==> forall r <- rs :: Identified(r)
      ensures valid ==> forall i :: RangeOf(rs, i) == if i in ranges then Some(ranges[i]) else None
    {
      ranges := map[];
      for k := 0 to |rs|
        invariant forall r <- rs[..k] :: Identified(r)
        invariant forall i :: RangeOf(rs[..k], i) == if i in ranges then Some(ranges[i]) else None
      {
        var r := rs[k];
        assert rs[..k + 1] == rs[..k] + [r] && rs[..k + 1][..k] == rs[..k];
        if r.instance == "" || r.number == 0 {
          assert !Identified(rs[k]);
          return false, ranges;
        }
        var before := if r.instance in ranges then Some(ranges[r.instance]) else None;
        ranges := ranges[r.instance := Widen(before, r.number)];
      }
      assert rs[..|rs|] == rs;
      return true, ranges;
    }

    /** The loop over the instances, in any order. */
    method CheckGaps(ghost rs: seq<AccessRecord>, ranges: map<string, Range>, cursors: string -> bool)
      returns (read: bool, warned: set<string>)
      requires forall i :: RangeOf(rs, i) == if i in ranges then Some(ranges[i]) else None
      ensures read <==> CanRead(rs, cursors)
      ensures read ==> WarnedExactly(st.rows, rs, warned)
    {
      warned := {};
      var todo := ranges.Keys;
      while todo != {}
        invariant todo <= ranges.Keys && warned <= ranges.Keys - todo
        invariant forall i <- ranges.Keys - todo :: cursors(i)
        invariant forall i, c :: i in ranges.Keys - todo && IsCursor(st.rows, i, c) ==>
                    (i in warned <==> Warns(ranges[i], Expected(c)))
      {
        var i :| i in todo;
        if !cursors(i) {
          assert RangeOf(rs, i).Some?;
          return false, warned;
        }
        var c := st.MaxAccessSequence(i);
        CursorIsUnique(st.rows, i, c);
        if Warns(ranges[i], Expected(c)) {
          warned := warned + {i};
        }
        todo := todo - {i};
      }
      return true, warned;
    }
  }

  lemma CursorIsUnique(rows: Rows, instance: string, c: Option<nat>)
    requires IsCursor(rows, instance, c)
    ensures forall d :: IsCursor(rows, instance, d) ==> d == c
  {
  }

  // ---------- What a warning means ----------

  function Numbers(rs: seq<AccessRecord>, instance: string): set<nat> {
    set r <- rs | r.instance == instance :: r.number
  }

  predicate NoRepeats(rs: seq<AccessRecord>) {
    forall i, j :: 0 <= i < j < |rs| ==> KeyOf(rs[i]) != KeyOf(rs[j])
  }

  /** The range is the least and the greatest number and how many there are. */
  predicate Spans(r: Option<Range>, s: set<nat>) {
    match r
    case None => s == {}
    case Some(rg) => rg.min in s && rg.max in s && (forall n <- s :: rg.min <= n <= rg.max) && rg.count == |s|
  }

  lemma WidenSpans(r: Option<Range>, s: set<nat>, n: nat)
    requires Spans(r, s) && n !in s
    ensures Spans(Some(Widen(r, n)), s + {n})
  {
  }

  lemma {:induction false} RangeIsExact(rs: seq<AccessRecord>, instance: string)
    requires NoRepeats(rs)
    ensures Spans(RangeOf(rs, instance), Numbers(rs, instance))
  {
    if rs != [] {
      var last := |rs| - 1;
      RangeIsExact(rs[..last], instance);
      NumbersSnoc(rs[..last], rs[last], instance);
      assert rs == rs[..last] + [rs[last]];
      if rs[last].instance == instance {
        NewNumber(rs);
        WidenSpans(RangeOf(rs[..last], instance), Numbers(rs[..last], instance), rs[last].number);
      }
    }
  }

  lemma NewNumber(rs: seq<AccessRecord>)
    requires NoRepeats(rs) && rs != []
    ensures rs[|rs| - 1].number !in Numbers(rs[..|rs| - 1], rs[|rs| - 1].instance)
  {
    var last := |rs| - 1;
    forall r <- rs[..last] | r.instance == rs[last].instance
      ensures r.number != rs[last].number
    {
      var i :| 0 <= i < last && rs[i] == r;
      assert KeyOf(rs[i]) != KeyOf(rs[last]);
    }
  }

  lemma NumbersSnoc(rs: seq<AccessRecord>, r: AccessRecord, instance: string)
    ensures Numbers(rs + [r], instance) == Numbers(rs, instance) + if r.instance == instance then {r.number} else {}
  {
  }

  function Interval(lo: int, hi: int): (s: set<int>)
    requires lo <= hi + 1
    ensures forall n :: n in s <==> lo <= n <= hi
    ensures |s| == hi - lo + 1
    decreases hi + 1 - lo
  {
    if lo > hi then {} else Interval(lo + 1, hi) + {lo}
  }

  /** Distinct numbers between a least and a greatest one fill the interval exactly when the count says so. */
  lemma CountsExactlyWhenContiguous(s: set<nat>, lo: nat, hi: nat)
    requires lo <= hi && forall n <- s :: lo <= n <= hi
    ensures hi - lo + 1 > |s| <==> exists n: nat :: lo <= n <= hi && n !in s
  {
    var all := Interval(lo, hi);
    var t: set<int> := set n: nat | n in s :: n as int;
    assert forall n: nat :: n in t <==> n in s;
    assert t <= all;
    assert t == s;
    if exists n: nat :: lo <= n <= hi && n !in s {
      var n: nat :| lo <= n <= hi && n !in s;
      assert t <= all - {n};
      SubsetSize(t, all - {n});
    } else {
      assert t == all;
    }
  }

  /** On a page without repeats a warning means that a number between the cursor or the oldest one and the newest is not there. */
  lemma WarnsExactlyOnMissing(rs: seq<AccessRecord>, instance: string, expected: nat)
    requires NoRepeats(rs) && RangeOf(rs, instance).Some?
    ensures var rg := RangeOf(rs, instance).value;
            Warns(rg, expected) <==>
            exists n: nat :: (expected <= n <= rg.max || rg.min <= n <= rg.max) && n !in Numbers(rs, instance)
  {
    RangeIsExact(rs, instance);
    var rg := RangeOf(rs, instance).value;
    CountsExactlyWhenContiguous(Numbers(rs, instance), rg.min, rg.max);
    if rg.max >= expected && rg.min > expected {
      assert expected !in Numbers(rs, instance);
    }
  }
}
