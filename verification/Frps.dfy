/**
 The whitelist kept by frps, as the gateway sees it: one expiring entry for each IP.
 Adding overwrites, removing may answer that there is nothing to remove, and entries
 vanish when they expire. Times are whole seconds.
 */
module Frps {
  import Duration

  datatype Writer = Gateway | Hand

  /** `writer` is the account that wrote the entry last, as frps records it. */
  datatype Entry = Entry(expireAt: int, operator: string, writer: Writer)

  type Table = map<string, Entry>

  /** What became of a remote call: answered, not carried out, or carried out but reported as failed. */
  datatype Call = Done | Refused | Lost

  datatype Removal = Removed | Absent | Failed

  /** The text the client prints for a positive lifetime is read by frps as its two-unit cut. */
  lemma SentAsCut(ttl: nat, length: int)
    requires ttl > 0 && length == ttl * Duration.SECOND
    ensures Duration.ParseText(Duration.FormatText(length)) == Duration.Ok(Duration.Cut(ttl) * Duration.SECOND)
  {
    assert length / Duration.SECOND == ttl;
    Duration.ParseOfFormat(length);
  }

  function AfterAdd(t: Table, ip: string, ttl: int, operator: string, now: int, c: Call): Table {
    if ttl <= 0 || c.Refused? then t else t[ip := Entry(now + Duration.Cut(ttl), operator, Gateway)]
  }

  function AfterRemove(t: Table, ip: string, c: Call): Table {
    if c.Refused? then t else t - {ip}
  }

  /** The table without what has expired. */
  function Prune(t: Table, now: int): Table {
    map ip | ip in t && t[ip].expireAt > now :: t[ip]
  }

  /** The client and the server behind it. */
  class Client {
    var table: Table

    constructor ()
      ensures table == map[]
    {
      table := map[];
    }

    method Add(ip: string, ttl: int, operator: string, now: int, c: Call) returns (ok: bool)
      modifies this`table
      ensures table == AfterAdd(old(table), ip, ttl, operator, now, c)
      ensures ok <==> ttl > 0 && c.Done?
      ensures forall other :: other != ip ==> (other in table <==> other in old(table)) && (other in table ==> table[other] == old(table)[other])
      ensures if ttl > 0 && !c.Refused? then ip in table && table[ip] == Entry(now + Duration.Cut(ttl), operator, Gateway)
              else table == old(table)
    {
      if ttl <= 0 {
        return false;
      }
      var text := Duration.Format(ttl * Duration.SECOND);
      if c.Refused? {
        return false;
      }
      var r := Duration.Parse(text);
      SentAsCut(ttl, ttl * Duration.SECOND);
      table := table[ip := Entry(now + r.length / Duration.SECOND, operator, Gateway)];
      return c.Done?;
    }

    method Remove(ip: string, c: Call) returns (r: Removal)
      modifies this`table
      ensures table == AfterRemove(old(table), ip, c)
      ensures table == if c.Refused? then old(table) else old(table) - {ip}
      ensures c.Done? ==> (r.Removed? <==> ip in old(table))
      ensures r.Failed? <==> !c.Done?
      ensures r.Absent? ==> ip !in old(table)
    {
      if c.Refused? {
        return Failed;
      }
      var present := ip in table;
      table := table - {ip};
      return if c.Lost? then Failed else if present then Removed else Absent;
    }
  }
}
