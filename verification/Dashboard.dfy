/**
 The dashboard's table of current addresses: what frps lists, matched with the live grants
 and the managed addresses of the ledger.
 */
module Dashboard {
  import opened Options
  import opened Ledger
  import opened Frps
  import opened Projection
  import Names
  import Revocation

  datatype Listed = Listed(ip: string, expireAt: int)

  /** In step with frps, left to whoever made it, to be cleaned up, to be written. */
  datatype Standing = InStep | ReadOnly | Leftover | Missing

  datatype Row = Row(ip: string, standing: Standing, expireAt: int, count: nat, subjects: string)

  /** The Unix second of Go's zero time. */
  const ZERO_TIME := -62135596800

  /** The grants on an address, in order. */
  function On(gs: seq<Grant>, ip: string): seq<Grant> {
    if gs == [] then []
    else if gs[|gs| - 1].ip == ip then On(gs[..|gs| - 1], ip) + [gs[|gs| - 1]]
    else On(gs[..|gs| - 1], ip)
  }

  lemma {:induction false} OnHasAll(gs: seq<Grant>, ip: string)
    ensures forall g :: g in On(gs, ip) <==> g in gs && g.ip == ip
  {
    if gs != [] {
      OnHasAll(gs[..|gs| - 1], ip);
      assert gs == gs[..|gs| - 1] + [gs[|gs| - 1]];
    }
  }

  function Newest(gs: seq<Grant>): int {
    if gs == [] then ZERO_TIME
    else Max(Newest(gs[..|gs| - 1]), gs[|gs| - 1].expireAt)
  }

  function Max(x: int, y: int): int { if y > x then y else x }

  function NamesOf(gs: seq<Grant>): set<string> {
    set g <- gs :: Names.DisplayName(g.name, g.openId)
  }

  function AllIPs(gs: seq<Grant>): set<string> {
    set g <- gs :: g.ip
  }

  function ListedIPs(entries: seq<Listed>): set<string> {
    set e <- entries :: e.ip
  }

  function StandingOf(ip: string, own: seq<Grant>, managed: set<string>): Standing {
    if |own| > 0 then InStep else if ip in managed then Leftover else ReadOnly
  }

  ghost function EntryRow(e: Listed, active: seq<Grant>, managed: set<string>): Row {
    var own := On(active, e.ip);
    Row(e.ip, StandingOf(e.ip, own, managed), e.expireAt, |own|, Names.Label(NamesOf(own)))
  }

  ghost function EntryRows(entries: seq<Listed>, active: seq<Grant>, managed: set<string>): seq<Row> {
    if entries == [] then []
    else
      EntryRows(entries[..|entries| - 1], active, managed) + [EntryRow(entries[|entries| - 1], active, managed)]
  }

  ghost function MissingRow(active: seq<Grant>, ip: string): Row {
    Row(ip, Missing, Newest(On(active, ip)), |On(active, ip)|, Names.Label(NamesOf(On(active, ip))))
  }

  ghost function MissingRows(active: seq<Grant>, ips: set<string>): set<Row> {
    set ip <- ips :: MissingRow(active, ip)
  }

  function RowIP(r: Row): string { r.ip }

  /** One row for each entry, one for each active address that is not listed, ascending by address. */
  ghost predicate Shows(rows: seq<Row>, entries: seq<Listed>, active: seq<Grant>, managed: set<string>) {
    && Names.Ascending(rows, RowIP)
    && multiset(rows) == multiset(EntryRows(entries, active, managed))
                         + multiset(MissingRows(active, AllIPs(active) - ListedIPs(entries)))
  }

  type Groups = map<string, seq<Grant>>

  ghost predicate Grouped(gs: seq<Grant>, byIP: Groups) {
    GroupsHold(gs, byIP) && byIP.Keys == AllIPs(gs)
  }

  ghost predicate GroupsHold(gs: seq<Grant>, byIP: Groups) {
    forall ip :: On(gs, ip) == if ip in byIP then byIP[ip] else []
  }

  function WithGrant(byIP: Groups, g: Grant): Groups {
    byIP[g.ip := (if g.ip in byIP then byIP[g.ip] else []) + [g]]
  }

  lemma OnSnoc(gs: seq<Grant>, g: Grant, ip: string)
    ensures On(gs + [g], ip) == if g.ip == ip then On(gs, ip) + [g] else On(gs, ip)
  {
    assert (gs + [g])[..|gs|] == gs;
  }

  lemma GroupAt(gs: seq<Grant>, g: Grant, byIP: Groups, ip: string)
    requires On(gs, ip) == if ip in byIP then byIP[ip] else []
    ensures var byIP' := WithGrant(byIP, g); On(gs + [g], ip) == if ip in byIP' then byIP'[ip] else []
  {
    OnSnoc(gs, g, ip);
  }

  lemma GroupsStay(gs: seq<Grant>, g: Grant, byIP: Groups)
    requires GroupsHold(gs, byIP)
    ensures GroupsHold(gs + [g], WithGrant(byIP, g))
  {
    forall ip
      ensures var byIP' := WithGrant(byIP, g); On(gs + [g], ip) == if ip in byIP' then byIP'[ip] else []
    {
      GroupAt(gs, g, byIP, ip);
    }
  }

  lemma AllIPsSnoc(gs: seq<Grant>, g: Grant)
    ensures AllIPs(gs + [g]) == AllIPs(gs) + {g.ip}
  {
  }

  lemma GroupStep(gs: seq<Grant>, i: nat, byIP: Groups)
    requires i < |gs| && Grouped(gs[..i], byIP)
    ensures Grouped(gs[..i + 1], WithGrant(byIP, gs[i]))
  {
    assert gs[..i + 1] == gs[..i] + [gs[i]];
    GroupsStay(gs[..i], gs[i], byIP);
    AllIPsSnoc(gs[..i], gs[i]);
  }

  method GroupByIP(gs: seq<Grant>) returns (byIP: Groups)
    ensures Grouped(gs, byIP)
  {
    byIP := map[];
    for i := 0 to |gs|
      invariant Grouped(gs[..i], byIP)
    {
      GroupStep(gs, i, byIP);
      byIP := WithGrant(byIP, gs[i]);
    }
    assert gs[..|gs|] == gs;
  }

  lemma NamesOfNext(gs: seq<Grant>, i: nat)
    requires i < |gs|
    ensures NamesOf(gs[..i + 1]) == NamesOf(gs[..i]) + {Names.DisplayName(gs[i].name, gs[i].openId)}
  {
    assert gs[..i + 1] == gs[..i] + [gs[i]];
  }

  method SubjectNames(gs: seq<Grant>) returns (text: string)
    ensures text == Names.Label(NamesOf(gs))
  {
    var seen: set<string>, out: seq<string> := {}, [];
    for i := 0 to |gs|
      invariant seen == NamesOf(gs[..i])
      invariant multiset(out) == multiset(seen)
    {
      NamesOfNext(gs, i);
      var name := Names.DisplayName(gs[i].name, gs[i].openId);
      if name !in seen {
        seen := seen + {name};
        out := out + [name];
      }
    }
    assert gs[..|gs|] == gs;
    text := Names.JoinSorted(out, seen);
  }

  method NewestOf(gs: seq<Grant>) returns (expiry: int)
    ensures expiry == Newest(gs)
  {
    expiry := ZERO_TIME;
    for i := 0 to |gs|
      invariant expiry == Newest(gs[..i])
    {
      assert gs[..i + 1][..i] == gs[..i];
      if gs[i].expireAt > expiry {
        expiry := gs[i].expireAt;
      }
    }
    assert gs[..|gs|] == gs;
  }

  /** `None` stands for a call to frps or the store that failed. */
  method CurrentRows(entries: Option<seq<Listed>>, active: Option<seq<Grant>>, managed: Option<set<string>>)
    returns (rows: Option<seq<Row>>)
    ensures rows.Some? <==> entries.Some? && active.Some? && managed.Some?
    ensures rows.Some? ==> Shows(rows.value, entries.value, active.value, managed.value)
    ensures rows.Some? ==> forall i, j :: 0 <= i < j < |rows.value| ==> !Names.Before(rows.value[j].ip, rows.value[i].ip)
  {
    if entries.None? || active.None? || managed.None? {
      return None;
    }
    var byIP := GroupByIP(active.value);
    var listed, seen := RowsOfEntries(entries.value, byIP, active.value, managed.value);
    var missing := RowsOfMissing(byIP, seen, active.value);
    return Some(Names.SortBy(listed + missing, RowIP));
  }

  method RowsOfEntries(entries: seq<Listed>, byIP: Groups, ghost active: seq<Grant>, managed: set<string>)
    returns (rows: seq<Row>, seen: set<string>)
    requires Grouped(active, byIP)
    ensures rows == EntryRows(entries, active, managed) && seen == ListedIPs(entries)
  {
    rows, seen := [], {};
    for i := 0 to |entries|
      invariant rows == EntryRows(entries[..i], active, managed)
      invariant seen == ListedIPs(entries[..i])
    {
      assert entries[..i + 1] == entries[..i] + [entries[i]];
      EntryRowsSnoc(entries[..i], entries[i], active, managed);
      seen := seen + {entries[i].ip};
      var row := EntryRowOf(entries[i], byIP, active, managed);
      rows := rows + [row];
    }
    assert entries[..|entries|] == entries;
  }

  lemma EntryRowsSnoc(entries: seq<Listed>, e: Listed, active: seq<Grant>, managed: set<string>)
    ensures EntryRows(entries + [e], active, managed) == EntryRows(entries, active, managed) + [EntryRow(e, active, managed)]
    ensures ListedIPs(entries + [e]) == ListedIPs(entries) + {e.ip}
  {
    assert (entries + [e])[..|entries|] == entries;
  }

  /** The body of the loop over the entries. */
  method EntryRowOf(e: Listed, byIP: Groups, ghost active: seq<Grant>, managed: set<string>) returns (row: Row)
    requires Grouped(active, byIP)
    ensures row == EntryRow(e, active, managed)
  {
    var own := if e.ip in byIP then byIP[e.ip] else [];
    var subjects := SubjectNames(own);
    return Row(e.ip, StandingOf(e.ip, own, managed), e.expireAt, |own|, subjects);
  }

  /** The loop over the grouped grants, in any order. */
  method RowsOfMissing(byIP: Groups, seen: set<string>, ghost active: seq<Grant>) returns (rows: seq<Row>)
    requires Grouped(active, byIP)
    ensures multiset(rows) == multiset(MissingRows(active, AllIPs(active) - seen))
  {
    rows := [];
    var todo := byIP.Keys;
    ghost var done: set<string> := {};
    while todo != {}
      invariant todo <= byIP.Keys && done == byIP.Keys - todo - seen
      invariant multiset(rows) == multiset(MissingRows(active, done))
    {
      var ip :| ip in todo;
      todo := todo - {ip};
      if ip !in seen {
        var row := MissingRowOf(ip, byIP[ip], active);
        MissingRowsGrow(active, done, ip);
        rows := rows + [row];
        done := done + {ip};
      }
    }
  }

  /** The body of that loop. */
  method MissingRowOf(ip: string, own: seq<Grant>, ghost active: seq<Grant>) returns (row: Row)
    requires own == On(active, ip)
    ensures row == MissingRow(active, ip)
  {
    var subjects := SubjectNames(own);
    var expiry := NewestOf(own);
    return Row(ip, Missing, expiry, |own|, subjects);
  }

  lemma MissingRowsGrow(active: seq<Grant>, done: set<string>, ip: string)
    requires ip !in done
    ensures multiset(MissingRows(active, done + {ip})) == multiset(MissingRows(active, done)) + multiset{MissingRow(active, ip)}
  {
    assert MissingRows(active, done + {ip}) == MissingRows(active, done) + {MissingRow(active, ip)};
    assert MissingRow(active, ip) !in MissingRows(active, done);
  }

  // ---------- What the table says ----------

  /** frps lists each of its entries once. */
  ghost predicate Lists(entries: seq<Listed>, t: Table) {
    && ListedIPs(entries) == t.Keys
    && (forall e <- entries :: e.ip in t && e.expireAt == t[e.ip].expireAt)
    && (forall i, j :: 0 <= i < j < |entries| ==> entries[i].ip != entries[j].ip)
  }

  /** The dashboard's rows for a world. */
  ghost predicate ShowsWorld(rows: seq<Row>, entries: seq<Listed>, w: World) {
    Lists(entries, w.table) && Shows(rows, entries, ActiveGrants(w.books.grants, w.now), w.books.managed)
  }

  predicate Settled(r: Row) { r.standing.InStep? || r.standing.ReadOnly? }

  lemma {:induction false} EntryRowsAt(entries: seq<Listed>, active: seq<Grant>, managed: set<string>)
    ensures |EntryRows(entries, active, managed)| == |entries|
    ensures forall i :: 0 <= i < |entries| ==> EntryRows(entries, active, managed)[i] == EntryRow(entries[i], active, managed)
  {
    if entries != [] {
      EntryRowsAt(entries[..|entries| - 1], active, managed);
    }
  }

  lemma RowsAre(rows: seq<Row>, entries: seq<Listed>, active: seq<Grant>, managed: set<string>, r: Row)
    requires Shows(rows, entries, active, managed)
    ensures r in rows <==>
            r in EntryRows(entries, active, managed) || r in MissingRows(active, AllIPs(active) - ListedIPs(entries))
  {
    var es, ms := EntryRows(entries, active, managed), MissingRows(active, AllIPs(active) - ListedIPs(entries));
    assert r in rows <==> r in multiset(rows);
    assert r in multiset(rows) <==> r in multiset(es) || r in multiset(ms);
  }

  lemma EntryRowsHave(entries: seq<Listed>, active: seq<Grant>, managed: set<string>)
    ensures forall e <- entries :: EntryRow(e, active, managed) in EntryRows(entries, active, managed)
    ensures forall r <- EntryRows(entries, active, managed) :: exists e <- entries :: r == EntryRow(e, active, managed)
  {
    EntryRowsAt(entries, active, managed);
    forall e | e in entries
      ensures EntryRow(e, active, managed) in EntryRows(entries, active, managed)
    {
      var i :| 0 <= i < |entries| && entries[i] == e;
      assert EntryRows(entries, active, managed)[i] == EntryRow(e, active, managed);
    }
  }

  /** Each row comes from an entry or from an unlisted active address, and each of these has its row. */
  lemma RowsComeFrom(rows: seq<Row>, entries: seq<Listed>, active: seq<Grant>, managed: set<string>)
    requires Shows(rows, entries, active, managed)
    ensures forall r <- rows :: (exists e <- entries :: r == EntryRow(e, active, managed))
                             || (exists ip <- AllIPs(active) - ListedIPs(entries) :: r == MissingRow(active, ip))
    ensures forall e <- entries :: EntryRow(e, active, managed) in rows
    ensures forall ip <- AllIPs(active) - ListedIPs(entries) :: MissingRow(active, ip) in rows
  {
    EntryRowsHave(entries, active, managed);
    forall r
      ensures r in rows <==>
              r in EntryRows(entries, active, managed) || r in MissingRows(active, AllIPs(active) - ListedIPs(entries))
    {
      RowsAre(rows, entries, active, managed, r);
    }
  }

  lemma ActiveAddresses(gs: seq<Grant>, now: int)
    ensures AllIPs(ActiveGrants(gs, now)) == LiveIPs(gs, now)
  {
  }

  lemma StandingIs(w: World, e: Listed)
    ensures var s := EntryRow(e, ActiveGrants(w.books.grants, w.now), w.books.managed).standing;
            && (s.InStep? <==> e.ip in ActiveIPs(w.books, w.now))
            && (s.Leftover? <==> e.ip in w.books.managed - ActiveIPs(w.books, w.now))
            && !s.Missing?
  {
    var active := ActiveGrants(w.books.grants, w.now);
    OnHasAll(active, e.ip);
    ActiveAddresses(w.books.grants, w.now);
    if e.ip in ActiveIPs(w.books, w.now) {
      var g :| g in active && g.ip == e.ip;
      assert g in On(active, e.ip);
    }
    if |On(active, e.ip)| > 0 {
      assert On(active, e.ip)[0] in On(active, e.ip);
    }
  }

  ghost predicate InAgreement(w: World) {
    ActiveIPs(w.books, w.now) <= w.table.Keys && w.table.Keys * w.books.managed <= ActiveIPs(w.books, w.now)
  }

  /** Nothing is to be cleaned up or written exactly when frps and the ledger agree on the addresses. */
  lemma SettledExactly(w: World, entries: seq<Listed>, rows: seq<Row>)
    requires ShowsWorld(rows, entries, w)
    ensures (forall r <- rows :: Settled(r)) <==> InAgreement(w)
  {
    RowsComeFrom(rows, entries, ActiveGrants(w.books.grants, w.now), w.books.managed);
    if InAgreement(w) {
      forall r | r in rows
        ensures Settled(r)
      {
        RowIsSettled(w, entries, rows, r);
      }
    } else {
      SomeUnsettled(w, entries, rows);
    }
  }

  lemma RowIsSettled(w: World, entries: seq<Listed>, rows: seq<Row>, r: Row)
    requires ShowsWorld(rows, entries, w) && InAgreement(w) && r in rows
    ensures Settled(r) && r.ip in w.table && (r.standing.InStep? <==> r.ip in ActiveIPs(w.books, w.now))
  {
    var active, managed := ActiveGrants(w.books.grants, w.now), w.books.managed;
    RowsComeFrom(rows, entries, active, managed);
    ActiveAddresses(w.books.grants, w.now);
    assert AllIPs(active) - ListedIPs(entries) == {};
    var e :| e in entries && r == EntryRow(e, active, managed);
    StandingIs(w, e);
  }

  lemma SomeUnsettled(w: World, entries: seq<Listed>, rows: seq<Row>)
    requires ShowsWorld(rows, entries, w) && !InAgreement(w)
    ensures exists r <- rows :: !Settled(r)
  {
    var active, managed := ActiveGrants(w.books.grants, w.now), w.books.managed;
    RowsComeFrom(rows, entries, active, managed);
    ActiveAddresses(w.books.grants, w.now);
    if !(ActiveIPs(w.books, w.now) <= w.table.Keys) {
      var ip :| ip in ActiveIPs(w.books, w.now) && ip !in w.table;
      assert ip in AllIPs(active) - ListedIPs(entries);
      assert MissingRow(active, ip) in rows;
    } else {
      var ip :| ip in w.table.Keys * managed && ip !in ActiveIPs(w.books, w.now);
      assert ip in ListedIPs(entries);
      var e :| e in entries && e.ip == ip;
      StandingIs(w, e);
      assert EntryRow(e, active, managed) in rows;
    }
  }

  lemma {:induction false} DistinctOnce<T>(xs: seq<T>, x: T)
    requires forall i, j :: 0 <= i < j < |xs| ==> xs[i] != xs[j]
    ensures multiset(xs)[x] <= 1
  {
    if xs != [] {
      var last := |xs| - 1;
      DistinctOnce(xs[..last], x);
      assert xs == xs[..last] + [xs[last]];
      assert xs[last] !in xs[..last];
    }
  }

  /**
   In the second after a successful pass the table has each address of frps once, active
   addresses in step and all others left alone: nothing to clean up, nothing to write.
   */
  lemma DashboardAgrees(w: World, w': World, entries: seq<Listed>, rows: seq<Row>)
    requires Pass(w, w', true) && ShowsWorld(rows, entries, w')
    ensures forall i, j :: 0 <= i < j < |rows| ==> rows[i].ip != rows[j].ip
    ensures forall ip :: ip in w'.table <==> exists r <- rows :: r.ip == ip
    ensures forall r <- rows :: r.standing == if r.ip in ActiveIPs(w'.books, w'.now) then InStep else ReadOnly
  {
    AgreesAfterPass(w, w');
    RowsAreDistinct(w', entries, rows);
    forall r | r in rows
      ensures r.standing == if r.ip in ActiveIPs(w'.books, w'.now) then InStep else ReadOnly
    {
      RowIsSettled(w', entries, rows, r);
    }
    forall ip
      ensures ip in w'.table <==> exists r <- rows :: r.ip == ip
    {
      RowOfAddress(rows, entries, w', ip);
    }
  }

  /** Right after a pass a row in step shows the expiry and the holders that frps shows. */
  lemma RowsShowHolders(w: World, w': World, entries: seq<Listed>, rows: seq<Row>, r: Row)
    requires Pass(w, w', true) && ShowsWorld(rows, entries, w') && r in rows && r.standing.InStep?
    ensures r.ip in w'.table && r.expireAt == w'.table[r.ip].expireAt && r.subjects == w'.table[r.ip].operator
  {
    var active, managed := ActiveGrants(w'.books.grants, w'.now), w'.books.managed;
    RowsComeFrom(rows, entries, active, managed);
    var e :| e in entries && r == EntryRow(e, active, managed);
    AgreesAfterPass(w, w');
    RowIsSettled(w', entries, rows, r);
    NamesAreHolders(active, r.ip);
    PassOperator(w, w', r.ip);
  }

  lemma NamesAreHolders(gs: seq<Grant>, ip: string)
    ensures NamesOf(On(gs, ip)) == HolderNames(gs, ip)
  {
    OnHasAll(gs, ip);
  }

  lemma PassOperator(w: World, w': World, ip: string)
    requires Pass(w, w', true) && ip in ActiveIPs(w'.books, w'.now)
    ensures ip in w'.table && w'.table[ip].operator == Names.Label(HolderNames(ActiveGrants(w'.books.grants, w'.now), ip))
  {
    var goal := Goal(w.books.grants, w.now);
    assert ip in goal && SameAt(goal, w'.table, ip);
    Revocation.GoalAt(w.books.grants, ip, w.now);
  }

  /** Two rows for one address would be the same row twice. */
  lemma SameAddressSameRow(rows: seq<Row>, entries: seq<Listed>, active: seq<Grant>, managed: set<string>, r: Row, q: Row)
    requires Shows(rows, entries, active, managed) && r in rows && q in rows && r.ip == q.ip
    requires forall i, j :: 0 <= i < j < |entries| ==> entries[i].ip != entries[j].ip
    ensures r == q
  {
    RowsComeFrom(rows, entries, active, managed);
  }

  lemma RowIsThereOnce(rows: seq<Row>, entries: seq<Listed>, active: seq<Grant>, managed: set<string>, r: Row)
    requires Shows(rows, entries, active, managed)
    requires forall i, j :: 0 <= i < j < |entries| ==> entries[i].ip != entries[j].ip
    ensures multiset(rows)[r] <= 1
  {
    var es := EntryRows(entries, active, managed);
    EntryRowsAt(entries, active, managed);
    DistinctOnce(es, r);
    assert r in es ==> r !in MissingRows(active, AllIPs(active) - ListedIPs(entries)) by {
      EntryRowsHave(entries, active, managed);
    }
    assert r in multiset(es) <==> r in es;
  }

  /** No address has two rows. */
  lemma RowsAreDistinct(w: World, entries: seq<Listed>, rows: seq<Row>)
    requires ShowsWorld(rows, entries, w)
    ensures forall i, j :: 0 <= i < j < |rows| ==> rows[i].ip != rows[j].ip
  {
    var active, managed := ActiveGrants(w.books.grants, w.now), w.books.managed;
    forall i, j | 0 <= i < j < |rows|
      ensures rows[i].ip != rows[j].ip
    {
      if rows[i].ip == rows[j].ip {
        SameAddressSameRow(rows, entries, active, managed, rows[i], rows[j]);
        Names.RepeatsCount(rows, i, j);
        RowIsThereOnce(rows, entries, active, managed, rows[i]);
      }
    }
  }

  lemma AgreesAfterPass(w: World, w': World)
    requires Pass(w, w', true)
    ensures InAgreement(w')
  {
    var goal := Goal(w.books.grants, w.now);
    assert goal.Keys == ActiveIPs(w.books, w.now);
  }

  /** The number of live grants on an address. */
  function LiveCount(gs: seq<Grant>, ip: string, now: int): nat {
    |set i: nat | i < |gs| && gs[i].ip == ip && gs[i].revokedAt.None? && now < gs[i].expireAt|
  }

  lemma {:induction false} OnCounts(gs: seq<Grant>, ip: string, now: int)
    ensures |On(ActiveGrants(gs, now), ip)| == LiveCount(gs, ip, now)
  {
    if gs != [] {
      OnCounts(gs[..|gs| - 1], ip, now);
      LiveCountStep(gs, ip, now);
      OnOfActive(gs, ip, now);
    }
  }

  lemma LiveCountStep(gs: seq<Grant>, ip: string, now: int)
    requires gs != []
    ensures var g := gs[|gs| - 1];
            LiveCount(gs, ip, now) ==
            LiveCount(gs[..|gs| - 1], ip, now) + if g.ip == ip && g.revokedAt.None? && now < g.expireAt then 1 else 0
  {
    var front, last := gs[..|gs| - 1], |gs| - 1;
    assert (set i: nat | i < |gs| && gs[i].ip == ip && gs[i].revokedAt.None? && now < gs[i].expireAt)
        == (set i: nat | i < |front| && front[i].ip == ip && front[i].revokedAt.None? && now < front[i].expireAt)
           + if gs[last].ip == ip && gs[last].revokedAt.None? && now < gs[last].expireAt then {last} else {};
  }

  lemma OnOfActive(gs: seq<Grant>, ip: string, now: int)
    requires gs != []
    ensures var front, g := gs[..|gs| - 1], gs[|gs| - 1];
            On(ActiveGrants(gs, now), ip) ==
            On(ActiveGrants(front, now), ip) + if g.ip == ip && g.revokedAt.None? && now < g.expireAt then [g] else []
  {
    var front, g := gs[..|gs| - 1], gs[|gs| - 1];
    OnSnoc(ActiveGrants(front, now), g, ip);
    if g.Active(now) {
      assert ActiveGrants(gs, now) == ActiveGrants(front, now) + [g];
    } else {
      assert ActiveGrants(gs, now) == ActiveGrants(front, now);
    }
  }

  /** The names are those that hold the address, each once and in order. */
  ghost predicate NamesHolders(subjects: string, gs: seq<Grant>, ip: string, now: int) {
    var ns := Names.Parts(subjects);
    && (forall n :: n in ns <==> Holds(gs, ip, now, n))
    && forall i, j :: 0 <= i < j < |ns| ==> Names.Before(ns[i], ns[j])
  }

  lemma SubjectsAre(gs: seq<Grant>, ip: string, now: int)
    ensures var subjects := Names.Label(NamesOf(On(ActiveGrants(gs, now), ip)));
            if ip !in LiveIPs(gs, now) then subjects == ""
            else (forall n :: Holds(gs, ip, now, n) ==> Names.IsPlain(n)) ==> NamesHolders(subjects, gs, ip, now)
  {
    var active := ActiveGrants(gs, now);
    NamesAreHolders(active, ip);
    forall n
      ensures n in HolderNames(active, ip) <==> Holds(gs, ip, now, n)
    {
      HoldersAre(gs, ip, now, n);
    }
    if ip in LiveIPs(gs, now) {
      HoldersExist(gs, ip, now);
      if forall n :: Holds(gs, ip, now, n) ==> Names.IsPlain(n) {
        Names.LabelListsNames(HolderNames(active, ip));
      }
    } else {
      assert HolderNames(active, ip) == {};
      Names.LabelOfNone();
    }
  }

  /**
   What every row says, whatever frps and the ledger hold: how many live grants its address
   has, who holds it, how it stands, and until when, as frps lists it or else as a pass will write it.
   */
  lemma RowsTell(w: World, entries: seq<Listed>, rows: seq<Row>, r: Row)
    requires ShowsWorld(rows, entries, w) && r in rows
    ensures r.count == LiveCount(w.books.grants, r.ip, w.now)
    ensures r.ip !in LiveIPs(w.books.grants, w.now) ==> r.subjects == ""
    ensures r.ip in LiveIPs(w.books.grants, w.now) && (forall n :: Holds(w.books.grants, r.ip, w.now, n) ==> Names.IsPlain(n)) ==>
              NamesHolders(r.subjects, w.books.grants, r.ip, w.now)
    ensures r.standing == if r.ip in w.table then
                            if r.ip in LiveIPs(w.books.grants, w.now) then InStep
                            else if r.ip in w.books.managed then Leftover else ReadOnly
                          else Missing
    ensures r.ip in w.table ==> r.expireAt == w.table[r.ip].expireAt
    ensures r.ip !in w.table && w.now >= ZERO_TIME ==> EffectiveExpiry(w.books.grants, r.ip, w.now) == Some(r.expireAt)
  {
    var active, managed := ActiveGrants(w.books.grants, w.now), w.books.managed;
    RowsComeFrom(rows, entries, active, managed);
    OnCounts(w.books.grants, r.ip, w.now);
    SubjectsAre(w.books.grants, r.ip, w.now);
    ActiveAddresses(w.books.grants, w.now);
    if e :| e in entries && r == EntryRow(e, active, managed) {
      StandingIs(w, e);
    } else {
      var ip :| ip in AllIPs(active) - ListedIPs(entries) && r == MissingRow(active, ip);
      if w.now >= ZERO_TIME {
        MissingShowsExpiry(w.books.grants, ip, w.now);
      }
    }
  }

  /** An address has a row exactly when frps has an entry for it or someone has a live grant on it. */
  lemma RowOfAddress(rows: seq<Row>, entries: seq<Listed>, w: World, ip: string)
    requires ShowsWorld(rows, entries, w)
    ensures ip in w.table || ip in LiveIPs(w.books.grants, w.now) <==> exists r <- rows :: r.ip == ip
  {
    var active, managed := ActiveGrants(w.books.grants, w.now), w.books.managed;
    RowsComeFrom(rows, entries, active, managed);
    ActiveAddresses(w.books.grants, w.now);
    if ip in w.table {
      assert ip in ListedIPs(entries);
      var e :| e in entries && e.ip == ip;
      assert EntryRow(e, active, managed) in rows;
    } else if ip in LiveIPs(w.books.grants, w.now) {
      assert ip in AllIPs(active) - ListedIPs(entries);
      assert MissingRow(active, ip) in rows;
    }
  }

  /** The expiry shown for an address that is still to be written is the one a pass will use. */
  lemma MissingShowsExpiry(gs: seq<Grant>, ip: string, now: int)
    requires ip in LiveIPs(gs, now) && now >= ZERO_TIME
    ensures EffectiveExpiry(gs, ip, now) == Some(MissingRow(ActiveGrants(gs, now), ip).expireAt)
  {
    NewestIsLatest(ActiveGrants(gs, now), ip);
    ExpiryOfActive(gs, ip, now);
  }

  lemma {:induction false} NewestIsLatest(gs: seq<Grant>, ip: string)
    requires forall g <- gs :: g.expireAt > ZERO_TIME
    ensures Newest(On(gs, ip)) == if Latest(gs, ip).Some? then Latest(gs, ip).value else ZERO_TIME
    ensures Newest(On(gs, ip)) >= ZERO_TIME
  {
    if gs != [] {
      var front := gs[..|gs| - 1];
      NewestIsLatest(front, ip);
      assert gs[|gs| - 1] in gs;
      assert (On(front, ip) + [gs[|gs| - 1]])[..|On(front, ip)|] == On(front, ip);
    }
  }
}
