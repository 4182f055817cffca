/**
 Who stood behind a connection: each access record of a page gets the names of the users
 with a live grant at that moment, or else of everyone who ever held the address.
 */
module Owners {
  import opened Options
  import opened Ledger
  import opened Projection
  import Names

  /** The columns of an access record that matter here. */
  datatype Seen = Seen(ip: string, time: int, owner: string, exact: bool)

  // ---------- The definition over all grants ----------

  predicate CoversMoment(g: Grant, ip: string, t: int) {
    g.ip == ip && g.revokedAt.None? && g.createdAt <= t < g.expireAt
  }

  function CoveringNames(gs: seq<Grant>, ip: string, t: int): set<string> {
    set g <- gs | CoversMoment(g, ip, t) :: Names.DisplayName(g.name, g.openId)
  }

  /** The names a connection is attributed to, and whether they held the address at that moment. */
  datatype Attribution = Attribution(names: set<string>, exact: bool)

  function AttributionOf(gs: seq<Grant>, ip: string, t: int): Attribution {
    if CoveringNames(gs, ip, t) != {} then Attribution(CoveringNames(gs, ip, t), true)
    else Attribution(HolderNames(gs, ip), false)
  }

  ghost function Owned(gs: seq<Grant>, r: Seen): Seen {
    var a := AttributionOf(gs, r.ip, r.time);
    if a.names == {} then r else r.(owner := Names.Label(a.names), exact := a.exact || r.exact)
  }

  // ---------- The pass over rows grouped by address ----------

  datatype Window = Window(display: string, createdAt: int, expireAt: int, revoked: bool) {
    predicate Covers(t: int) { !revoked && createdAt <= t < expireAt }
  }

  function WindowOf(g: Grant): Window {
    Window(Names.DisplayName(g.name, g.openId), g.createdAt, g.expireAt, g.revokedAt.Some?)
  }

  function WindowsOn(rows: seq<Grant>, ip: string): seq<Window> {
    if rows == [] then []
    else if rows[|rows| - 1].ip == ip then WindowsOn(rows[..|rows| - 1], ip) + [WindowOf(rows[|rows| - 1])]
    else WindowsOn(rows[..|rows| - 1], ip)
  }

  function EverOf(ws: seq<Window>): set<string> {
    set w <- ws :: w.display
  }

  function CoveredOf(ws: seq<Window>, t: int): set<string> {
    set w <- ws | w.Covers(t) :: w.display
  }

  lemma {:induction false} WindowsAreGrants(rows: seq<Grant>, ip: string, t: int)
    ensures EverOf(WindowsOn(rows, ip)) == HolderNames(rows, ip)
    ensures CoveredOf(WindowsOn(rows, ip), t) == CoveringNames(rows, ip, t)
  {
    if rows != [] {
      var front, g := rows[..|rows| - 1], rows[|rows| - 1];
      WindowsAreGrants(front, ip, t);
      assert rows == front + [g];
      WindowsSnoc(WindowsOn(front, ip), WindowOf(g), t);
      NamesSnoc(front, g, ip, t);
    }
  }

  lemma WindowsSnoc(ws: seq<Window>, w: Window, t: int)
    ensures EverOf(ws + [w]) == EverOf(ws) + {w.display}
    ensures CoveredOf(ws + [w], t) == if w.Covers(t) then CoveredOf(ws, t) + {w.display} else CoveredOf(ws, t)
  {
  }

  lemma NamesSnoc(gs: seq<Grant>, g: Grant, ip: string, t: int)
    ensures var n := Names.DisplayName(g.name, g.openId);
            && HolderNames(gs + [g], ip) == (if g.ip == ip then HolderNames(gs, ip) + {n} else HolderNames(gs, ip))
            && CoveringNames(gs + [g], ip, t) ==
                 if CoversMoment(g, ip, t) then CoveringNames(gs, ip, t) + {n} else CoveringNames(gs, ip, t)
  {
  }

  type Groups = map<string, seq<Window>>

  ghost predicate Grouped(rows: seq<Grant>, byIP: Groups) {
    forall ip :: WindowsOn(rows, ip) == if ip in byIP then byIP[ip] else []
  }

  function WithWindow(byIP: Groups, g: Grant): Groups {
    byIP[g.ip := (if g.ip in byIP then byIP[g.ip] else []) + [WindowOf(g)]]
  }

  lemma GroupAt(rows: seq<Grant>, i: nat, byIP: Groups, ip: string)
    requires i < |rows| && WindowsOn(rows[..i], ip) == if ip in byIP then byIP[ip] else []
    ensures var byIP' := WithWindow(byIP, rows[i]); WindowsOn(rows[..i + 1], ip) == if ip in byIP' then byIP'[ip] else []
  {
    assert rows[..i + 1][..i] == rows[..i];
  }

  lemma GroupStep(rows: seq<Grant>, i: nat, byIP: Groups)
    requires i < |rows| && Grouped(rows[..i], byIP)
    ensures Grouped(rows[..i + 1], WithWindow(byIP, rows[i]))
  {
    forall ip
      ensures var byIP' := WithWindow(byIP, rows[i]); WindowsOn(rows[..i + 1], ip) == if ip in byIP' then byIP'[ip] else []
    {
      GroupAt(rows, i, byIP, ip);
    }
  }

  method GroupByIP(rows: seq<Grant>) returns (byIP: Groups)
    ensures Grouped(rows, byIP)
  {
    byIP := map[];
    for i := 0 to |rows|
      invariant Grouped(rows[..i], byIP)
    {
      GroupStep(rows, i, byIP);
      byIP := WithWindow(byIP, rows[i]);
    }
    assert rows[..|rows|] == rows;
  }

  /** The inner loop: who covered the moment, and who ever held the address. */
  method Split(ws: seq<Window>, t: int) returns (covered: set<string>, ever: set<string>)
    ensures covered == CoveredOf(ws, t) && ever == EverOf(ws)
  {
    covered, ever := {}, {};
    for i := 0 to |ws|
      invariant covered == CoveredOf(ws[..i], t) && ever == EverOf(ws[..i])
    {
      WindowsSnoc(ws[..i], ws[i], t);
      assert ws[..i + 1] == ws[..i] + [ws[i]];
      ever := ever + {ws[i].display};
      if ws[i].Covers(t) {
        covered := covered + {ws[i].display};
      }
    }
    assert ws[..|ws|] == ws;
  }

  /** What SELECT ... WHERE ip IN (...) answers: the grants on the addresses, in any order. */
  ghost predicate Answers(rows: seq<Grant>, gs: seq<Grant>, ips: set<string>) {
    forall g :: g in rows <==> g in gs && g.ip in ips
  }

  function IPsOf(records: seq<Seen>): set<string> {
    set r <- records :: r.ip
  }

  /** `rows` is the answer of the database, `None` when it fails. */
  method AttachAccessOwners(records: array<Seen>, rows: Option<seq<Grant>>, ghost gs: seq<Grant>) returns (ok: bool)
    requires rows.Some? ==> Answers(rows.value, gs, IPsOf(records[..]))
    modifies records
    ensures ok <==> records.Length == 0 || rows.Some?
    ensures forall i :: 0 <= i < records.Length ==>
              records[i] == if ok then Owned(gs, old(records[i])) else old(records[i])
  {
    if records.Length == 0 {
      return true;
    }
    if rows.None? {
      return false;
    }
    var byIP := GroupByIP(rows.value);
    ghost var before := records[..];
    for i := 0 to records.Length
      invariant forall j :: 0 <= j < i ==> records[j] == Owned(gs, before[j])
      invariant forall j :: i <= j < records.Length ==> records[j] == before[j]
    {
      AnswersHere(rows.value, gs, before, i);
      var owned := OwnerOf(records[i], byIP, rows.value, gs);
      records[i] := owned;
    }
    return true;
  }

  lemma AnswersHere(rows: seq<Grant>, gs: seq<Grant>, records: seq<Seen>, i: nat)
    requires Answers(rows, gs, IPsOf(records)) && i < |records|
    ensures SameOn(rows, gs, records[i].ip)
  {
    assert records[i] in records;
  }

  /** The two lists have the same grants on the address. */
  ghost predicate SameOn(rows: seq<Grant>, gs: seq<Grant>, ip: string) {
    forall g: Grant :: g.ip == ip ==> (g in rows <==> g in gs)
  }

  method OwnerOf(r: Seen, byIP: Groups, ghost rows: seq<Grant>, ghost gs: seq<Grant>) returns (r': Seen)
    requires Grouped(rows, byIP)
    requires SameOn(rows, gs, r.ip)
    ensures r' == Owned(gs, r)
  {
    var covered, ever := Split(if r.ip in byIP then byIP[r.ip] else [], r.time);
    WindowsAreGrants(rows, r.ip, r.time);
    SameGrantsSameNames(rows, gs, r.ip, r.time);
    if covered != {} {
      var text := Names.JoinNames(covered);
      return r.(owner := text, exact := true);
    }
    if ever != {} {
      var text := Names.JoinNames(ever);
      return r.(owner := text);
    }
    return r;
  }

  lemma SameGrantsSameNames(rows: seq<Grant>, gs: seq<Grant>, ip: string, t: int)
    requires SameOn(rows, gs, ip)
    ensures CoveringNames(rows, ip, t) == CoveringNames(gs, ip, t)
    ensures HolderNames(rows, ip) == HolderNames(gs, ip)
  {
  }

  // ---------- What the owner means ----------

  /**
   For a connection of this very second the owner is exact when the address is active, and then
   it is the label a reconciliation pass writes to frps.
   */
  lemma OwnerIsOperator(gs: seq<Grant>, r: Seen, now: int)
    requires r.time == now && !r.exact && forall g <- gs :: g.createdAt <= now
    ensures Owned(gs, r).exact <==> r.ip in LiveIPs(gs, now)
    ensures r.ip in LiveIPs(gs, now) ==> r.ip in Goal(gs, now) && Owned(gs, r).owner == Goal(gs, now)[r.ip].operator
  {
    CoveringIsHolding(gs, r.ip, now);
    if r.ip in LiveIPs(gs, now) {
      ExpiryOfActive(gs, r.ip, now);
      HoldersExist(gs, r.ip, now);
    }
  }

  lemma CoveringIsHolding(gs: seq<Grant>, ip: string, now: int)
    requires forall g <- gs :: g.createdAt <= now
    ensures CoveringNames(gs, ip, now) == HolderNames(ActiveGrants(gs, now), ip)
    ensures CoveringNames(gs, ip, now) != {} ==> ip in LiveIPs(gs, now)
  {
  }

  /** A grant that covered the moment, not revoked, under this name or without a name this identifier. */
  predicate CoveredBy(gs: seq<Grant>, r: Seen, n: string) {
    exists g <- gs :: g.ip == r.ip && g.revokedAt.None? && g.createdAt <= r.time < g.expireAt
                      && n == if g.name != "" then g.name else g.openId
  }

  /** Any grant on the address, live or not, under this name or without a name this identifier. */
  predicate OnceHeldBy(gs: seq<Grant>, r: Seen, n: string) {
    exists g <- gs :: g.ip == r.ip && n == if g.name != "" then g.name else g.openId
  }

  lemma CoveringNamesAre(gs: seq<Grant>, r: Seen, n: string)
    ensures n in CoveringNames(gs, r.ip, r.time) <==> CoveredBy(gs, r, n)
    ensures n in HolderNames(gs, r.ip) <==> OnceHeldBy(gs, r, n)
  {
    if CoveredBy(gs, r, n) {
      var g :| g in gs && g.ip == r.ip && g.revokedAt.None? && g.createdAt <= r.time < g.expireAt
               && n == if g.name != "" then g.name else g.openId;
      assert CoversMoment(g, r.ip, r.time) && Names.DisplayName(g.name, g.openId) == n;
    }
    if OnceHeldBy(gs, r, n) {
      var g :| g in gs && g.ip == r.ip && n == if g.name != "" then g.name else g.openId;
      assert Names.DisplayName(g.name, g.openId) == n;
    }
  }

  /** The owner lists exactly those who covered the moment, else those who ever held the address, else it stays as it was. */
  lemma OwnerListsExactly(gs: seq<Grant>, r: Seen)
    requires forall n :: OnceHeldBy(gs, r, n) ==> Names.IsPlain(n)
    ensures var ns := Names.Parts(Owned(gs, r).owner);
            if exists n :: CoveredBy(gs, r, n) then Owned(gs, r).exact && forall n :: n in ns <==> CoveredBy(gs, r, n)
            else if exists n :: OnceHeldBy(gs, r, n) then
              Owned(gs, r).exact == r.exact && forall n :: n in ns <==> OnceHeldBy(gs, r, n)
            else Owned(gs, r) == r
  {
    forall n
      ensures n in CoveringNames(gs, r.ip, r.time) <==> CoveredBy(gs, r, n)
      ensures n in HolderNames(gs, r.ip) <==> OnceHeldBy(gs, r, n)
    {
      CoveringNamesAre(gs, r, n);
    }
    assert CoveringNames(gs, r.ip, r.time) <= HolderNames(gs, r.ip);
    var names := AttributionOf(gs, r.ip, r.time).names;
    if names != {} {
      Names.LabelListsNames(names);
    }
  }

  /**
   A revocation takes a name out of the exact owners of a moment, past ones included, exactly
   when every grant of that name covering the moment is among those revoked. A grant of the same
   user that had run out before is not touched and still counts for its own time.
   */
  lemma RevokingRemovesExactly(gs: seq<Grant>, user: string, ip: string, now: int, t: int, n: string)
    ensures n in CoveringNames(RevokedBy(gs, user, ip, now), ip, t) <==>
            exists g <- gs :: CoversMoment(g, ip, t) && Names.DisplayName(g.name, g.openId) == n && !g.HeldBy(user, now)
  {
    var gs' := RevokedBy(gs, user, ip, now);
    if n in CoveringNames(gs', ip, t) {
      var i :| 0 <= i < |gs'| && CoversMoment(gs'[i], ip, t) && Names.DisplayName(gs'[i].name, gs'[i].openId) == n;
      assert gs'[i] == gs[i] && gs[i] in gs;
    }
    if g :| g in gs && CoversMoment(g, ip, t) && Names.DisplayName(g.name, g.openId) == n && !g.HeldBy(user, now) {
      var i :| 0 <= i < |gs| && gs[i] == g;
      assert gs'[i] == g && gs'[i] in gs';
    }
  }

  /** Those who ever held the address stay the same. */
  lemma RevokingKeepsHolders(gs: seq<Grant>, user: string, ip: string, now: int)
    ensures HolderNames(RevokedBy(gs, user, ip, now), ip) == HolderNames(gs, ip)
  {
    var gs' := RevokedBy(gs, user, ip, now);
    forall n
      ensures n in HolderNames(gs', ip) <==> n in HolderNames(gs, ip)
    {
      if n in HolderNames(gs, ip) {
        var i :| 0 <= i < |gs| && gs[i].ip == ip && Names.DisplayName(gs[i].name, gs[i].openId) == n;
        assert gs'[i] in gs';
      }
      if n in HolderNames(gs', ip) {
        var i :| 0 <= i < |gs'| && gs'[i].ip == ip && Names.DisplayName(gs'[i].name, gs'[i].openId) == n;
        assert gs[i] in gs;
      }
    }
  }

  /** A connection inside a live grant has an exact owner until the grant is revoked, and none from then on. */
  lemma RevokeUnmakesExact(ip: string)
    ensures var gs := [Grant("u", "", ip, FeishuCommand, 0, 100, None)];
            var r := Seen(ip, 50, "", false);
            Owned(gs, r).exact && !Owned(RevokedBy(gs, "u", ip, 60), r).exact
  {
    var g := Grant("u", "", ip, FeishuCommand, 0, 100, None);
    var gs := [g];
    assert g in gs && Names.DisplayName(g.name, g.openId) in CoveringNames(gs, ip, 50);
    forall n
      ensures n !in CoveringNames(RevokedBy(gs, "u", ip, 60), ip, 50)
    {
      RevokingRemovesExactly(gs, "u", ip, 60, 50, n);
    }
  }
}
