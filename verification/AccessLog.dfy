/**
 The access-log table: rows keyed by frps instance and sequence number.
 */
module AccessLog {
  import opened Options

  datatype AccessRecord = AccessRecord(instance: string, number: nat, time: int, ip: string, user: string,
                                       source: string, action: string, reason: string)

  datatype Key = Key(instance: string, number: nat)

  type Rows = map<Key, AccessRecord>

  function KeyOf(r: AccessRecord): Key { Key(r.instance, r.number) }

  /** INSERT OR IGNORE. */
  function Inserted(rows: Rows, r: AccessRecord): Rows {
    if KeyOf(r) in rows then rows else rows[KeyOf(r) := r]
  }

  function InsertedAll(rows: Rows, rs: seq<AccessRecord>): Rows {
    if rs == [] then rows else Inserted(InsertedAll(rows, rs[..|rs| - 1]), rs[|rs| - 1])
  }

  function Keys(rs: seq<AccessRecord>): set<Key> {
    set r <- rs :: KeyOf(r)
  }

  /** Stored rows stay as they are; exactly the new keys are added, each with a record that was sent. */
  lemma {:induction false} InsertKeepsRows(rows: Rows, rs: seq<AccessRecord>)
    ensures var rows' := InsertedAll(rows, rs);
            && rows'.Keys == rows.Keys + Keys(rs)
            && (forall k <- rows :: rows'[k] == rows[k])
            && (forall k :: k in rows' && k !in rows ==> rows'[k] in rs && KeyOf(rows'[k]) == k)
  {
    if rs != [] {
      InsertKeepsRows(rows, rs[..|rs| - 1]);
      assert rs == rs[..|rs| - 1] + [rs[|rs| - 1]];
      assert Keys(rs) == Keys(rs[..|rs| - 1]) + {KeyOf(rs[|rs| - 1])};
    }
  }

  /** Polling a page again stores nothing. */
  lemma RepollStoresNothing(rows: Rows, rs: seq<AccessRecord>, again: seq<AccessRecord>)
    requires Keys(again) <= rows.Keys + Keys(rs)
    ensures InsertedAll(InsertedAll(rows, rs), again) == InsertedAll(rows, rs)
  {
    InsertKeepsRows(rows, rs);
    InsertKeepsRows(InsertedAll(rows, rs), again);
  }

  /** DELETE ... WHERE time < before. */
  function Pruned(rows: Rows, before: int): Rows {
    map k | k in rows && rows[k].time >= before :: rows[k]
  }

  /** The greatest stored number of an instance (SELECT MAX). */
  ghost predicate IsCursor(rows: Rows, instance: string, c: Option<nat>) {
    match c
    case None => forall k <- rows :: k.instance != instance
    case Some(n) => Key(instance, n) in rows && forall k <- rows :: k.instance == instance ==> k.number <= n
  }

  lemma OneLess(rows: Rows, k: Key)
    requires k in rows
    ensures |rows - {k}| == |rows| - 1
  {
    assert (rows - {k}).Keys == rows.Keys - {k};
    assert |rows - {k}| == |(rows - {k}).Keys| && |rows| == |rows.Keys|;
  }

  class AccessStore {
    var rows: Rows

    constructor ()
      ensures rows == map[]
    {
      rows := map[];
    }

    method InsertAccessRecords(rs: seq<AccessRecord>, db: bool) returns (ok: bool, inserted: nat)
      modifies this
      ensures ok == (db || rs == [])
      ensures rows == if ok then InsertedAll(old(rows), rs) else old(rows)
      ensures inserted == |rows| - |old(rows)|
    {
      if |rs| == 0 {
        return true, 0;
      }
      if !db {
        return false, 0;
      }
      inserted := 0;
      for i := 0 to |rs|
        invariant rows == InsertedAll(old(rows), rs[..i])
        invariant inserted == |rows| - |old(rows)|
      {
        assert rs[..i + 1][..i] == rs[..i];
        if KeyOf(rs[i]) !in rows {
          rows := rows[KeyOf(rs[i]) := rs[i]];
          inserted := inserted + 1;
        }
      }
      assert rs[..|rs|] == rs;
      return true, inserted;
    }

    method PruneAccessRecords(before: int, db: bool) returns (ok: bool, removed: nat)
      modifies this
      ensures ok == db && rows == if db then Pruned(old(rows), before) else old(rows)
      ensures db ==> forall k :: k in rows <==> k in old(rows) && before <= old(rows)[k].time
      ensures forall k <- rows :: k in old(rows) && rows[k] == old(rows)[k]
      ensures removed == |old(rows)| - |rows|
    {
      removed := 0;
      if !db {
        return false, 0;
      }
      var todo := rows.Keys;
      while todo != {}
        invariant todo <= old(rows).Keys && removed == |old(rows)| - |rows|
        invariant rows == map k | k in old(rows) && (k in todo || old(rows)[k].time >= before) :: old(rows)[k]
      {
        var k :| k in todo;
        todo := todo - {k};
        if rows[k].time < before {
          OneLess(rows, k);
          rows := rows - {k};
          removed := removed + 1;
        }
      }
      return true, removed;
    }

    method MaxAccessSequence(instance: string) returns (c: Option<nat>)
      ensures IsCursor(rows, instance, c)
    {
      c := None;
      var todo := rows.Keys;
      while todo != {}
        invariant todo <= rows.Keys
        invariant match c
                  case None => forall k <- rows.Keys - todo :: k.instance != instance
                  case Some(n) => Key(instance, n) in rows && forall k <- rows.Keys - todo :: k.instance == instance ==> k.number <= n
      {
        var k :| k in todo;
        todo := todo - {k};
        if k.instance == instance && (c.None? || k.number > c.value) {
          c := Some(k.number);
        }
      }
    }
  }
}
