# Verified model of the frps gateway

The gateway lets people put their own IP address on the whitelist of an frps server, by chat,
by a one-time link or through an admin console. SQLite is the ledger: grants of many users for
an address, the set of addresses the gateway manages, one-time tokens, an audit log, a durable
inbox and outbox, and the access log shipped from frps. frps keeps one expiring entry for each
address. A change is a transaction on the ledger followed by remote calls that may fail, get
lost, or never be made; a reconciliation pass brings frps back in step without touching entries
made by hand.

This project models that protocol and the smaller state machines around it, and proves what they
keep over all their runs.

| file | what it models |
|---|---|
| `Duration.dfy` | lifetimes as text: the parser, the two-unit printer, and what printing cuts off |
| `Options.dfy`, `Sets.dfy` | an option type and sizes of sets, shared by the others |
| `Names.dfy` | sorted, joined owner labels, independent of map order |
| `Ledger.dfy` | the transactions of the store, and the class `Store` that carries them out |
| `LedgerRuns.dfy`, `TokenHistory.dfy`, `AuditHistory.dfy` | runs of transactions and clock ticks: limits, tokens, audit replay |
| `Frps.dfy`, `Projection.dfy` | the whitelist on frps, and what the ledger says it should be |
| `Reconciliation.dfy` | one pass, call by call |
| `Commands.dfy`, `Authorize.dfy`, `AdminChanges.dfy` | the three ways of changing the ledger, and the reply cache |
| `Granting.dfy`, `Revocation.dfy` | what frps holds after a grant and after a revocation on a shared address |
| `SerialRuns.dfy`, `Coverage.dfy` | runs of whole operations that may be half done: soundness, recovery, continuous coverage |
| `Interleaving.dfy` | the pass split into its calls, with ledger changes, ticks and edits of frps in between |
| `LateCalls.dfy` | the calls of chat and link changes as steps of their own among those of a pass |
| `AccessLog.dfy`, `Ingest.dfy`, `GapAccounting.dfy`, `Pruning.dfy` | access records: storing them, warning about gaps, and warning after pruning |
| `Owners.dfy`, `OwnerHistory.dfy` | the owners of a connection, and what becomes of them when the ledger changes later |
| `Backoff.dfy`, `Inbox.dfy`, `Outbox.dfy` | delivery state machines with backoff |
| `Limiter.dfy` | sliding windows for requests and failed logins |
| `Knock.dfy`, `Dashboard.dfy` | the admin knock and the table of current addresses |

How it is set up. Stateful components are classes whose methods do what the Go methods do, in the
same order and with the same branches; each method's contract equates the new state with a function
of the old one (`Effect`, `Adding`, `Removing`, `Posted`, `Executed`, `Hit`, ...), and the lemmas
are about those functions and runs of them. What such a function computes is also said in terms of
the fields alone, in an `ensures` of the method or in a lemma (`ConsumeRefusedExactly`,
`AddRepliesExactly`, `PostRefusesExactly`, `LabelListsNames`, `AnswersExactly`, `FormatIs`, ...).
What the outside world decides is a parameter: `db` and `Luck` for database calls, `Call` (answered,
refused, or carried out but reported as failed) and `Weather` for calls to frps, `now` for the
clock, and the random tokens. Loops over Go maps pick their next key in any order. Two levels of
runs are used: in `SerialRuns` operations follow one another, each of them possibly half done and
taking place within one second; in `Interleaving` a pass is split into its calls, and anything may
happen between two of them.

Where the code and its documentation differ:

- `docs/api.md:18` says that a shared address has the latest expiry of all its grants on frps. A
  grant by chat or link writes its own lifetime instead (`executor/executor.go:95`,
  `authorize/server.go:197`). `Granting.ShortGrantHidesLonger` shows it, and
  `Granting.GrantShowsMaximumExactly` and `Granting.LinkShowsMaximumExactly` say exactly when the
  promise holds at once. A pass restores it (`SerialRuns.PassRecovers`).
- "An address with an active grant is managed" can fail when a grant is recorded while a pass is
  about to forget the address. `Interleaving.OverlapOrphans` shows it,
  `Interleaving.ForgettingBreaksExactlyOnLive` says exactly when the step does it.
  What is left behind then is lasting: once the grant is revoked, no number of passes takes the
  address off frps before its entry ends (`LateCalls.OrphanOutlivesItsGrant`). The same happens when
  the call of a grant arrives after a pass has forgotten its address
  (`LateCalls.LateCallOutlivesItsGrant`). `LateCalls.OwnManagedExactly` says exactly which steps leave
  an entry of the gateway unmanaged, and `Interleaving.UndisturbedPassClearsExactly` what a pass clears.
- `docs/api.md:12` promises each employee a limited number of active addresses. `CreateAdminGrant` does
  not look at the limit (`LedgerRuns.AdminExceedsLimit`). `LedgerRuns.LimitHoldsExactly` says exactly
  when the limit holds all along.
- `ingest/ingest.go:1-4` and the warning text speak of gaps. When all records were pruned the poller
  expects the first number again, and warns although nothing was lost (`Pruning.WarnsWithoutLoss`);
  `Pruning.WarnsExactlyWithPruning` says exactly when.
- `docs/api.md:14` says that repeated events are dropped by their message. A repeat is handled again
  when the cache of replies could not be written before or cannot be read now;
  `Commands.DeliveryIsHarmlessExactly` says exactly when that does no harm.
- `store/store.go:627-628` says that an owner is exact when the connection fell inside a live grant.
  Owners are worked out when the log is read, and a grant revoked since then does not count any more,
  not even for the time when it was live (`Owners.RevokeUnmakesExact`).
  `OwnerHistory.AttributionLastsExactly` says exactly when an attribution read later is the one of its
  own second, and `Owners.RevokingRemovesExactly` which names one revocation takes away.
- `docs/api.md:14` says that interrupted events are retried automatically. The error of a failing retry
  is dropped (`feishu/bot.go:364`), and such an item waits for a restart (`Inbox.AnItemGetsStuck`);
  `Inbox.ItemsAreNotLost` says exactly when there is one.
- `docs/api.md:24` says that all hits of a knock must fall in one window. The code renews the window
  with each hit, so over all runs the promise holds exactly with two hits, or with a window of a single
  nanosecond (`Knock.InOneWindowExactly`). With every other configuration a run earns a gate with a
  slower knock (`Knock.SlowKnockEarns`).
- Because lifetimes are cut to two units, passes an hour and a minute apart lose a second of a
  grant (`Coverage.PeriodIsTight`); up to 3659 seconds apart they lose nothing.

## Model

| member | source | states |
|---|---|---|
| Duration.Parse | duration/duration.go:14-57 | the loop reads exactly the segments of the trimmed, lower-cased text, and fails where the recursive reading fails |
| Duration.ScanNumber | duration/duration.go:25-28 | the inner scan stops at the first character that is no digit or dot |
| Duration.ReadsExactly | duration/duration.go:22-56 | a trimmed text is read with a value exactly when it is a sequence of decimal numbers with known units of that sum |
| Duration.ParseIsAdditive | duration/duration.go:22-56 | a valid text followed by any text reads as the sum, or fails as the second text does |
| Duration.RefusesExactly | duration/duration.go:29-52 | a text is refused for a reason exactly when some accepted pieces are followed by no number, a bad number, a number at the end, or a number and a character that is no unit |
| Duration.IsNumberExactly | duration/duration.go:32-36 | of the texts of digits and dots exactly those with a digit and at most one dot are numbers |
| Duration.WholeAmount | duration/duration.go:40-54 | n seconds, minutes, hours and days in nanoseconds |
| Duration.FractionAmount | duration/duration.go:40-54 | a number with a fraction is worth its digits divided by the power of ten of its decimals, cut to a whole nanosecond |
| Duration.ParseIsOfCore | duration/duration.go:15-21 | surrounding white space is dropped, ASCII capitals read as small letters, and a space, tab or line break inside is refused |
| Duration.Format | duration/duration.go:61-89 | the loop prints at most the two leading non-zero units |
| Duration.Segment | duration/duration.go:75-84 | the loop over the units, for any list of units: the text of up to two of them that are not zero, the rest dropped |
| Duration.FormatIs | duration/duration.go:61-89 | the text is the count of the largest unit that goes into the length and of the largest that goes into what is left, 0s for less than a second |
| Duration.DigitsAreCanonical | duration/duration.go:78 | the digits of a number are the one decimal text of its value without leading zeros |
| Duration.ParseOfFormat | duration/duration.go:14-89 | parsing what was printed gives the length in whole seconds, cut to two units |
| Duration.CutIsGreatest | duration/duration.go:65-88 | the cut is the greatest length not above the given one that two units can show |
| Duration.CutIsExact | duration/duration.go:65-88 | the cut changes nothing exactly when at most two units are non-zero, never below an hour, and never twice |
| Duration.CutIsMonotone | duration/duration.go:65-88 | a longer lifetime is never cut to less |
| Duration.CutLoss | duration/duration.go:65-88 | less than one part in 26 is lost, and what is cut at all still lasts at least 3660 seconds |
| Names.ListingIsUnique | executor/executor.go:258-265 | a set of names has one sorted listing, so labels do not depend on map order |
| Names.JoinNames | store/store.go:822-829 | collecting the names in any order, sorting and joining gives the label of the set, which lists every name once in ascending order |
| Names.LabelListsNames | executor/executor.go:258-265 | the label of names without the separator splits into exactly these names, each once, in ascending order |
| Names.LabelDeterminesNames | executor/executor.go:258-265 | different sets of such names have different labels |
| Names.JoinedSplits | executor/executor.go:264 | a joined text is what joining a front gives, the separator, and what joining the rest gives |
| Names.BeforeIsFirstDifference | executor/executor.go:263 | names are ordered by their first difference, a prefix before what it begins |
| Ledger.Store.AddGrantLimited | store/store.go:351-382 | refused without a trace exactly when the live addresses of this user with the new one are more than the limit, else the grant and its address are recorded |
| Ledger.Store.CreateToken | store/store.go:230-234 | a token is stored unless its message is known, or else its hash, which are told apart |
| Ledger.Store.ConsumeTokenIPs | store/store.go:267-345 | refused exactly when the token is unknown, used or expired, or when the live addresses of its owner with the wanted ones are more than the limit; else it is used up for one grant to each distinct address; any refusal leaves everything unchanged |
| Ledger.Store.Targets | store/store.go:268-275 | the addresses of the request, each once, in order of first mention |
| Ledger.Store.InsertLinks | store/store.go:308-319 | one row of the token's owner and one managed address for each target, in order |
| Ledger.Store.RevokeUserIP | store/store.go:384-390 | the live grants of the user on the address are revoked, and the count is positive exactly when there was one |
| Ledger.Store.CreateAdminGrant | store/store.go:503-532 | grant, managed address and audit row in one transaction, without a limit |
| Ledger.Store.ExtendAdminGrant | store/store.go:534-566 | a live grant gets the new expiry and an audit row; missing and inactive grants are told apart |
| Ledger.Store.RevokeAdminGrant | store/store.go:568-617 | a live grant is revoked with an audit row; missing and inactive grants are told apart |
| Ledger.Store.SetAdminAuditResult | store/store.go:619-622 | only the result of that row changes |
| Ledger.Store.ForgetManagedIP | store/store.go:907-910 | the address leaves the managed set |
| Ledger.SingleFormIsBatchForm | store/store.go:326-382 | the limit test for one grant is the batch test on one address |
| Ledger.ConsumeRefusedExactly | store/store.go:276-341 | why a link is refused: no address, a token that is unknown, used or expired, or no room for its owner |
| Ledger.AddRefusedExactly | store/store.go:354-378 | a limited grant is refused exactly when the user has no room for the address |
| Ledger.ChangeRefusedExactly | store/store.go:600-617 | an admin can change a grant exactly when it is there, not revoked and not run out |
| LedgerRuns.InactiveStaysInactive | store/store.go:384-598 | in every run rows keep their identity, and a grant that is expired or revoked never becomes active again |
| LedgerRuns.OnlyInsertsActivate | store/store.go:267-598 | an address becomes active only by an insert for it |
| LedgerRuns.InsertsAreManaged | store/store.go:315-363 | every address a transaction inserts a grant for is managed afterwards, and nothing but forgetting takes an address out |
| LedgerRuns.ActiveStaysManaged | store/store.go:290-367 | a transaction leaves every active address managed exactly when it does not forget an address in use |
| LedgerRuns.AcceptedWithinLimit | store/store.go:326-382 | after an accepted limited grant or consume the user has at most `max` distinct active addresses, whatever was granted before |
| LedgerRuns.LimitHoldsAlways | store/store.go:267-382 | without admin grants for the user the limit holds at every instant of every run |
| LedgerRuns.LimitHoldsExactly | store/store.go:503-532 | when all other inserts for the user are limited, the limit holds all along exactly when no admin gives the user a new live address while it is reached |
| LedgerRuns.AdminExceedsLimit | store/store.go:503-532 | a concrete admin grant that takes a user beyond the limit |
| TokenHistory.TokensAreConserved | store/store.go:267-321 | in every run each token yields at most one batch, before it expires, one row for each distinct address, all for the token's owner, and no other link rows exist |
| AuditHistory.AuditRowsCount | store/store.go:503-598 | one audit row for each admin change that succeeded; a grant is revoked at most once in the log and nothing follows it |
| AuditHistory.AuditReplays | store/store.go:503-598 | replaying the log gives the expiry of every admin-created grant, and its revocation unless its user revoked it |
| AuditHistory.CreatedIsReplayed | store/store.go:520-527 | every grant whose creation is in the log has a replay |
| Frps.Client.Add | frps/client.go:68-84 | a positive lifetime is sent as text, so the entry lasts for its two-unit cut; anything else is refused locally |
| Frps.Client.Remove | frps/client.go:88-94 | the entry is gone, "not found" answered only when there was none |
| Frps.SentAsCut | frps/client.go:72 | frps reads the printed lifetime as its cut |
| Projection.LatestIsMax | executor/executor.go:187-192 | the fold over the grants is their maximum, present exactly when a grant is on the address |
| Projection.LatestOfSameGrants | executor/executor.go:187-192 | the fold does not depend on the order of the grants |
| Projection.ExpiryOfActive | store/store.go:392-396 | an effective expiry exists exactly for active addresses, and lies ahead |
| Projection.EffectiveExpiryIsMax | store/store.go:392-396 | the effective expiry is the greatest expiry of the grants on the address that are not revoked and have not run out |
| Projection.OperatorListsHolders | executor/executor.go:196-200 | the operator that a pass writes lists exactly those who hold the address, each once and in order, unless a name has the separator in it |
| Reconciliation.Reconciler.Fold | executor/executor.go:185-197 | the two maps hold the latest expiry and the set of holders of every address |
| Reconciliation.Reconciler.AddAll | executor/executor.go:198-202 | the addresses written so far have exactly the entries the maps explain, in any order, up to the first call that fails |
| Reconciliation.Reconciler.RemoveStale | executor/executor.go:203-222 | only managed addresses that are not active are removed, and forgotten only after their removal, up to the first call that fails |
| Reconciliation.Reconciler.Reconcile | executor/executor.go:177-224 | a pass returns nil exactly when none of its calls failed, and then frps and the managed set are as the ledger says; stopped anywhere it has removed no active address and forgotten none that is still on frps |
| Reconciliation.FoldExplainsGoal | executor/executor.go:185-200 | what the pass sends for an address is what the effective expiry and the names of its holders ask for |
| Commands.Executor.Add | executor/executor.go:79-101 | one grant, then one call with the grant's own lifetime; the reply names the first thing that failed |
| Commands.Executor.Remove | executor/executor.go:102-146 | revoke, then refresh for the remaining holders or delete; each failure has its own reply |
| Commands.Executor.Resync | executor/executor.go:121-145 | the address is refreshed under the names and the latest expiry of the remaining holders, or deleted when there are none |
| Commands.Executor.Execute | executor/executor.go:39-70 | a known message is answered from the cache, any other is handled and its first reply kept |
| Commands.HoldingsAreOwn | store/store.go:398-400 | exactly the live grants of the user are listed |
| Commands.AddRepliesExactly | executor/executor.go:79-101 | each reply to a request for an address exactly on its condition, with the grant, the managed address and the entry it leaves |
| Commands.RemoveRepliesExactly | executor/executor.go:102-146 | each reply to a removal exactly on its condition: whether the user and whether anybody else holds the address |
| Commands.ListRepliesExactly | executor/executor.go:147-176 | a listing has the live grants of this user, each row once, and nothing else |
| Commands.HandlingIsByCommand | executor/executor.go:46-70 | each command is answered by its own branch, and only an added or removed address changes anything |
| Commands.RepeatsAreHarmless | executor/executor.go:39-70 | deliveries that are answered from the cache can be dropped from any sequence without a trace, whatever reads and writes of the cache fail elsewhere |
| Commands.DeliveryIsHarmlessExactly | executor/executor.go:39-70 | a delivery leaves ledger and frps alone exactly when the cache can be read and an earlier delivery could write it, or when handling it changes nothing: no accepted grant, no revocation that finds something |
| Commands.RepeatsGetTheFirstReply | store/store.go:114-132 | a repeat that can read the cache is answered with the first reply that was saved, whatever came between |
| Authorize.Server.Post | authorize/server.go:157-210 | a confirmed link is consumed first, then each recorded address is sent up to the first failure |
| Authorize.PostRefusesExactly | authorize/server.go:157-189 | each refusal exactly on its condition: a dead link, no room for its owner, a database that fails; a refusal changes nothing |
| Authorize.PostRecords | store/store.go:302-321 | an accepted confirmation uses the link up and records one grant for each of the two addresses, whatever becomes of the calls |
| Authorize.AddEachStops | authorize/server.go:196-202 | the calls stop at the first that fails, and entries that come after it are as before |
| Authorize.Server.AddGrants | authorize/server.go:196-202 | the calls for the recorded grants, in order, up to the first failure |
| Authorize.Server.NewLink | authorize/server.go:90-108 | the first of four identifiers that is free gets the token; it fails exactly when all are taken, the hash for the free one is known, or the database fails |
| Authorize.IdsAre | authorize/server.go:96-99 | the identifiers of the four attempts |
| Authorize.ClientIP | authorize/server.go:222-261 | the peer's address, or behind a trusted peer the last untrusted address of the header, if it is public |
| Authorize.PrefixCannotSpoof | authorize/server.go:238-252 | what a client writes in front of the header cannot change an answer, which is never a trusted or private address |
| Authorize.LastUntrustedDecides | authorize/server.go:238-252 | the last part of the header that parses and is no trusted proxy decides: its address if it is public, a refusal if not |
| Granting.GrantedIsOnFrps | executor/executor.go:79-101 | after a successful grant the ledger has it within the limit, frps has it for its cut lifetime, and nothing else changed |
| Granting.GrantShowsMaximumExactly | executor/executor.go:95 | frps then shows the maximum over all holders exactly when what was left of the older grants is not cut to more than the new lifetime |
| Granting.ShortGrantHidesLonger | executor/executor.go:95 | a concrete short grant that hides the longer grant of another user |
| Granting.LinkIsOnFrps | authorize/server.go:157-210 | after a confirmed link each of its addresses is recorded and on frps for the link's lifetime, and no other entry changed |
| Granting.LinkShowsMaximumExactly | authorize/server.go:194-201 | the same condition for each address of a link |
| Revocation.RemoveIsExact | executor/executor.go:114-138 | after a successful removal other grants and entries are unchanged, and frps holds the address exactly when another live grant remains, as a pass would leave it |
| Revocation.RemoveRevokes | executor/executor.go:102-120 | the live grants of the user on the address are revoked once the ledger can be written, whatever comes after |
| Revocation.RemoveLeaves | executor/executor.go:118-141 | a removal that stops half-way leaves frps alone, and one that gets through leaves the address as a pass would |
| AdminChanges.Console.AddGrant | admin/admin.go:524-552 | a valid lifetime is recorded and followed by a pass whose outcome goes into the audit row |
| AdminChanges.Console.ExtendGrant | admin/admin.go:554-576 | the same for an extension |
| AdminChanges.Console.RevokeGrant | admin/admin.go:578-595 | the same for a revocation |
| AdminChanges.Console.WithMutation | admin/admin.go:597-619 | a refused change is reported and leaves everything as it was; any other is followed by the pass |
| AdminChanges.Console.ReconcileAudit | admin/admin.go:621-637 | the row says synced when the pass returned nil, failed otherwise, and nothing else of the log changes |
| AdminChanges.RowTellsTheOutcome | admin/admin.go:621-637 | the change stays in the ledger whatever becomes of the pass, and one row tells its outcome |
| AdminChanges.LifetimeExactly | admin/admin.go:639-648 | a lifetime is accepted exactly when its text reads as a positive length up to the limit |
| AdminChanges.ExtensionEnds | store/store.go:534-566 | an extended grant ends the given time from now, and no other grant changes |
| AdminChanges.SyncedRowIsTrue | admin/admin.go:621-637 | when the row says synced, frps held exactly what the ledger asked for and no other entry of the gateway |
| AdminChanges.CarriedIsARun | admin/admin.go:597-637 | an admin change is a piece of a serial run |
| SerialRuns.SerialRunsStaySound | executor/executor.go:198-222 | over all serial runs, with failures anywhere, every active address and every entry the gateway wrote stays managed until deleted or expired |
| SerialRuns.GoalIsLive | executor/executor.go:198-200 | what a pass writes has not expired, although it is cut |
| SerialRuns.PassRecovers | executor/executor.go:177-224 | from every reachable world a pass that returns nil leaves each active address with the cut maximum, nothing stale, managed equal to active, hand-made entries untouched; a second pass in the same second changes nothing |
| Coverage.CoverageIsContinuous | executor/executor.go:198-200 | with successful passes at most 3659 seconds apart an active address is live on frps at every second until exactly its effective expiry and never after |
| Coverage.PeriodIsTight | duration/duration.go:65-88 | with one second more between passes a grant of 3661 seconds is uncovered before it ends |
| Coverage.ExpiryPersists | store/store.go:392-396 | a live effective expiry stays the effective one until it is reached |
| Interleaving.ActiveIsManagedOrOrphaned | executor/executor.go:183-222 | in every interleaving an active address is managed, or was granted between the snapshot and the forgetting of it |
| Interleaving.ActiveIsManaged | executor/executor.go:183-222 | in every interleaving without such an overlap every active address is managed |
| Interleaving.ManagedAllAlongExactly | executor/executor.go:183-222 | in an interleaving active addresses are managed all along exactly when no successful forgetting meets an address that is live at that moment |
| Interleaving.ForgettingBreaksExactlyOnLive | executor/executor.go:219 | forgetting breaks the rule exactly when the address has a live grant at that moment, which is then newer than the snapshot |
| Interleaving.OverlapOrphans | executor/executor.go:207-222 | a concrete interleaving that leaves an active address unmanaged |
| Interleaving.UndisturbedPassCovers | executor/executor.go:177-224 | after any interleaving the next undisturbed pass that gets through within 3659 seconds of its start puts every active address on frps, live and not beyond its expiry |
| Interleaving.UndisturbedPassClearsExactly | executor/executor.go:177-224 | after such a pass, however long it took, an address without a live grant is off frps exactly when it was active or managed at the start, or has no earlier entry that still lasts |
| Interleaving.RevokedOrphanStays | executor/executor.go:203-222 | an active address that is not managed stays on frps through the next complete pass after its grant is revoked, unless its entry ends before |
| LateCalls.OwnManagedExactly | executor/executor.go:79-145 | with the calls of chat and link changes as steps of their own, the entries of the gateway are managed all along exactly unless a call arrives for an address that is not managed, or a pass forgets one that was written again after its removal |
| LateCalls.LateCallWasForgotten | store/store.go:907-910 | a call finds its address unmanaged only if a pass forgot it since the grant was recorded |
| LateCalls.RecordedIsPending | executor/executor.go:87-95 | the call for a grant is pending from the moment the grant is recorded |
| LateCalls.AddingIsSteps | executor/executor.go:87-95 | a grant by chat is its transaction and, if that was accepted, its call as steps of these runs |
| LateCalls.RemovingIsSteps | executor/executor.go:114-138 | a removal is its transaction and, if that found something and the holders can be read, its call |
| LateCalls.PostingIsSteps | authorize/server.go:176-202 | a confirmed link is its transaction and, if that was accepted, calls up to the first that fails |
| LateCalls.StrayStays | executor/executor.go:177-224 | an entry for an address that is neither managed nor active stays on frps until it ends, through any number of passes, whole or broken off |
| LateCalls.OrphanOutlivesItsGrant | executor/executor.go:177-224 | one run from the overlap of a pass and a grant to an entry that stays after its grant is revoked |
| LateCalls.LateCallOutlivesItsGrant | executor/executor.go:95 | one run in which a call that arrives late leaves such an entry |
| Interleaving.CallsRefinePass | executor/executor.go:198-222 | the calls of a pass in any order, undisturbed, add up to the pass as one step |
| AccessLog.AccessStore.InsertAccessRecords | store/store.go:645-673 | records with a new key are stored, others ignored, and the count is the growth of the table |
| AccessLog.InsertKeepsRows | store/store.go:645-673 | stored rows never change, and exactly the new keys are added |
| AccessLog.RepollStoresNothing | store/store.go:645-673 | polling a page again stores nothing |
| AccessLog.AccessStore.MaxAccessSequence | store/store.go:884-888 | the greatest stored number of the instance, none when there is none |
| Ingest.Poller.Store | ingest/ingest.go:94-146 | each outcome exactly on its condition; warned are exactly the instances that fail the gap test against their cursor |
| Ingest.Poller.Ranges | ingest/ingest.go:104-127 | least number, greatest number and count of every instance on the page, or the record without identity |
| Ingest.Poller.CheckGaps | ingest/ingest.go:128-140 | the loop over the instances, in any order, warns exactly of those that fail the test, and fails exactly when a cursor cannot be read |
| Ingest.RangeIsExact | ingest/ingest.go:104-127 | the range of a page without repeats is the minimum, the maximum and the size of its set of numbers |
| Ingest.CountsExactlyWhenContiguous | ingest/ingest.go:137-139 | distinct numbers between a least and a greatest one leave a hole exactly when they are fewer than the distance says |
| Ingest.WarnsExactlyOnMissing | ingest/ingest.go:128-139 | a warning means exactly that a number between the cursor, or the oldest record, and the newest is not on the page |
| GapAccounting.PollOnce | ingest/ingest.go:79-92 | the poller carries out a poll of the accounted feed: same table, and a warning exactly when the feed's poll warns |
| GapAccounting.GapsAreAccounted | ingest/ingest.go:94-146 | in every run what is stored and what warned polls skipped add up to the newest number fetched |
| GapAccounting.WarnsExactlyOnLoss | ingest/ingest.go:128-139 | a poll warns exactly when a record written since the last poll can no longer be had |
| AccessLog.AccessStore.PruneAccessRecords | store/store.go:677-683 | exactly the records before the moment are deleted and counted |
| Pruning.WarnsExactlyWithPruning | ingest/ingest.go:128-140 | in every run with pruning a poll warns exactly when a record was lost since the last poll, or everything was pruned and the ring has moved on |
| Pruning.WarnsWithoutLoss | ingest/ingest.go:128-140 | a concrete run in which a poll after pruning warns although nothing was lost |
| Pruning.PrunedComeBack | ingest/ingest.go:141-145 | the next poll stores every record that is still served, pruned before or not |
| Owners.AttachAccessOwners | store/store.go:754-820 | the pass over grouped rows gives every record the owner that the definition over all grants gives, in place, in any row order |
| Owners.Split | store/store.go:799-811 | who covered the moment, and who ever held the address |
| Owners.OwnerIsOperator | store/store.go:800-818 | for a connection of this second the owner is exact when the address is active, and then it is the label a pass writes to frps |
| Owners.OwnerListsExactly | store/store.go:800-829 | the owner lists exactly those who covered the moment, else exactly those who ever held the address, else stays as it was |
| Owners.RevokingRemovesExactly | store/store.go:800-817 | a revocation takes a name out of the exact owners of a moment exactly when every grant of that name covering it is among those revoked |
| Owners.RevokingKeepsHolders | store/store.go:800-817 | those who ever held the address stay the same |
| Owners.RevokeUnmakesExact | store/store.go:804-809 | a concrete connection inside a live grant whose owner is exact, and is not after a later revocation |
| OwnerHistory.CoversLaterExactly | store/store.go:800-817 | over any run, once the second is over, a name still counts for it exactly while a grant of the name that covered it was neither revoked nor shortened to before it |
| OwnerHistory.AttributionLastsExactly | store/store.go:754-820 | read later, a connection is attributed as in its own second exactly when each exact owner keeps such a grant, or, without exact owners, nobody new has held the address |
| OwnerHistory.ExactLastsExactly | store/store.go:812-814 | the owner stays exact exactly while one such grant is left |
| Backoff.WaitedIs | store/store.go:170-228 | the sum of the first k delays is 2^k - 1 up to nine, and grows by 256 from there |
| Inbox.InboxStore.ClaimInbox | store/store.go:191-217 | the oldest due item is taken for processing; none only when none is due |
| Inbox.InboxStore.EnqueueInbox | store/store.go:182-189 | an event is stored once; one without identifier or payload is refused |
| Inbox.InboxStore.CompleteInbox | store/store.go:219-222 | the item is completed, its other fields and all other items are as before |
| Inbox.InboxStore.RetryInbox | store/store.go:224-228 | the item is pending again with one more attempt, after the delay for its attempts |
| Inbox.InboxStore.WorkOnce | feishu/bot.go:346-373 | a worker completes what it handled and retries what failed |
| Inbox.ArrivalWaits | store/store.go:182-189 | a new event is pending and due at once, with its payload |
| Inbox.RetryWaitsExactly | store/store.go:224-228 | a retried item is due again exactly after the delay of its attempts |
| Inbox.RunsAreOrderly | store/store.go:182-228 | over all runs of any number of workers with restarts an item is held by at most one live worker, and retried only after the whole backoff |
| Inbox.CompletedIsForever | store/store.go:103-228 | completed items stay completed, and payloads never change |
| Inbox.HandledIsNeverHeldAgain | feishu/bot.go:346-373 | an item that was handled and completed is never held by a worker again |
| Inbox.TurnIsTakeAndSettle | feishu/bot.go:346-373 | the turn of a worker is a take and a settlement of the runs, so what holds in every run holds of it |
| Inbox.StrandsExactly | feishu/bot.go:350-365 | a step leaves an item in processing with nobody exactly when a worker can neither complete nor put back what it holds |
| Inbox.ItemsAreNotLost | feishu/bot.go:346-373 | after a run every item is completed, pending or held by a live worker exactly unless such a step happened and no restart followed it |
| Inbox.AnItemGetsStuck | feishu/bot.go:364 | a concrete event that is taken and can neither be completed nor put back; whatever follows, it waits for a restart |
| Inbox.RestartFrees | store/store.go:103 | a restart frees items stranded in processing and changes no other |
| Outbox.OutboxStore.PendingReplies | store/store.go:145-163 | due replies, oldest first, each once, and no older one is left behind |
| Outbox.BatchIs | store/store.go:145-163 | a batch is due replies as they are stored, oldest first; one that is due is left out only behind a full batch of older ones |
| Outbox.OutboxStore.EnqueueReply | store/store.go:136-143 | a new reply is stored with its chat and body, due at once; one that is not sent gets the new chat and body; one without message or chat is refused |
| Outbox.OutboxStore.MarkReplySent | store/store.go:165-168 | the reply is marked sent, others are as before |
| Outbox.OutboxStore.RetryReply | store/store.go:170-174 | an unsent reply has one more attempt and waits for the delay of its attempts |
| Outbox.OutboxStore.FlushReplies | feishu/bot.go:388-409 | the oldest due replies are loaded, and each is marked when it went out and put off when it did not |
| Outbox.FlushIsARun | feishu/bot.go:388-409 | a flush is a load and one sending after the other in the runs, so what holds in every run holds of it |
| Outbox.SentIsFinal | store/store.go:136-174 | in every run a sent reply never changes, and put-off replies wait the whole backoff |
| Outbox.StoredIsLastPut | store/store.go:136-143 | while a reply is not sent the table holds the chat and body put last, the first time as well |
| Outbox.NewReplyIsDue | store/store.go:136-143 | a new reply is due at once without attempts, and no other changes |
| Outbox.PutOffWaitsExactly | store/store.go:170-174 | a reply that could not be sent is due again exactly after the delay of its attempts |
| Outbox.SentIsStoredExactly | feishu/bot.go:388-409 | what is stored for a sent reply is what went out exactly when no EnqueueReply changed it between loading and marking |
| Limiter.Compact | feishu/bot.go:424-431 | the compaction keeps exactly the recent times in their order |
| Limiter.RateLimiter.Allow | feishu/bot.go:411-441 | the compacted, pruned lists decide as the full history of accepts would; afterwards this user's list is what the history has of the last minute, and every minute exactly the idle users are dropped |
| Limiter.RateLimiter.Prune | feishu/bot.go:416-421 | exactly the users without a request in the last minute are dropped |
| Limiter.AcceptKeepsBound | feishu/bot.go:432-440 | accepting only below the limit keeps every window of a minute within it |
| Limiter.RecentCounts | feishu/bot.go:424-431 | the list of recent times has one entry for each time after the cut |
| Limiter.BoundedCounts | feishu/bot.go:432-440 | the bound is on the number of accepted requests in each minute |
| Limiter.LoginGuard.LoginBlocked | admin/admin.go:695-710 | blocked exactly after five failures of the full history within ten minutes, until the first of them is ten minutes old |
| Limiter.LoginGuard.RecordFailure | admin/admin.go:712-716 | one more failure of this key, other keys as before |
| Limiter.LoginGuard.ClearFailures | admin/admin.go:718-722 | the failures of this key are forgotten, others stay |
| Knock.Guard.KnockDoor | admin/admin.go:195-241 | a hit is counted, refused or finishes the knock, and a finished knock asks for its gate |
| Knock.Guard.CountHit | admin/admin.go:201-233 | the first critical section: the hit is counted under the sent token if its progress is fresh, else under a new one while there is room |
| Knock.Guard.IssueGate | admin/admin.go:243-258 | the second critical section: a gate for the finished knock while there is room |
| Knock.Guard.Prune | admin/admin.go:282-293 | exactly what has expired goes from both maps |
| Knock.Guard.ConsumeGate | admin/admin.go:273-280 | the gate is gone, others stay |
| Knock.Guard.HasGate | admin/admin.go:260-271 | expired state goes, and exactly a live gate is accepted |
| Knock.RunsAreOk | admin/admin.go:195-293 | in every run progress counts the hits of its token, each in the window after the one before; a gate belongs to one finished knock of its own; neither map exceeds 1024 |
| Knock.AcceptsExactly | admin/admin.go:243-293 | a gate is accepted exactly when a finished knock opened it, it was not used, and its time is not over |
| Knock.AnswersExactly | admin/admin.go:201-233 | in every run the answer to a hit follows from the past: a knock under way goes on and earns with its last hit, any other hit begins a knock while fewer than 1024 are under way |
| Knock.HitIsRecorded | admin/admin.go:206-233 | a counted hit is the next knock of its token; the last one finishes the knock with all its times |
| Knock.IssuesExactly | admin/admin.go:243-258 | a finished knock gets its gate, for the configured time, exactly while fewer than 1024 gates are open |
| Knock.UseCloses | admin/admin.go:273-280 | using a gate closes this gate and no other |
| Knock.ClosedIsForever | admin/admin.go:260-293 | a used or expired gate is never accepted again |
| Knock.InOneWindowExactly | admin/admin.go:206-232 | in all runs every finished knock falls within one window exactly when two hits are enough, or the window is one nanosecond |
| Knock.SlowKnockEarns | admin/admin.go:206-232 | for every other configuration a run whose hits together take longer than the window earns a gate |
| Dashboard.CurrentRows | admin/admin.go:454-505 | one row for each entry of frps and for each active address that is missing there, sorted by address |
| Dashboard.GroupByIP | admin/admin.go:471-474 | the active grants grouped by address, in their order |
| Dashboard.RowsOfEntries | admin/admin.go:475-490 | a row for each entry, by whether grants or the managed set know its address |
| Dashboard.RowsOfMissing | admin/admin.go:491-502 | a row for each active address that frps does not list, in any order |
| Dashboard.SubjectNames | admin/admin.go:507-522 | the label of the grants' names, each once |
| Dashboard.SettledExactly | admin/admin.go:480-503 | nothing is shown as to be cleaned up or written exactly when frps and the ledger agree on the addresses |
| Dashboard.RowsTell | admin/admin.go:454-522 | whatever frps and the ledger hold, a row says how many live grants its address has, who holds it, how it stands, and until when |
| Dashboard.RowsAreDistinct | admin/admin.go:475-502 | no address has two rows |
| Dashboard.RowOfAddress | admin/admin.go:475-502 | an address has a row exactly when frps has an entry for it or a live grant is on it |
| Dashboard.DashboardAgrees | admin/admin.go:454-505 | in the second after a successful pass each address of frps is shown once, active ones in step and all others read-only |
| Dashboard.RowsShowHolders | admin/admin.go:475-522 | right after a successful pass a row in step shows the expiry and the holders that frps shows |
| Dashboard.MissingShowsExpiry | admin/admin.go:491-502 | the expiry shown for an address still to be written is its effective expiry |

## Left out

- HTTP serving, cookies, templates, CSRF, form parsing, the Feishu SDK, cards and websocket: plumbing.
- Configuration, secrets and URL checks: a flat list of branches.
- The text of chat commands and replies: commands come parsed, and a reply is a value that names its branch and what it reports.
- SHA-256, UUIDs and random tokens: opaque values, new ones where the knock needs it; a random source that fails only matters in `Knock`.
- Executor without a store, pagination, LIKE filters and log text: they would only add easy members.
- Order of listed grants (ORDER BY expire_at): the models use the grants as a set or in row order.
- Row identifiers are positions in the tables, from zero; no row of these tables is ever deleted.
- Audit rows have no source and detail column.
- A commit that fails is taken to have had no effect; so is a failed CompleteInbox before its retry.
- Widths of Go and SQLite integers: numbers are unbounded.
- The clock has whole seconds, except in `Limiter` and `Knock`, which count nanoseconds; in Go a remaining time under one second prints as "0s". A call to frps takes effect at the second its lifetime was computed.
- Time windows of frps entries (`windows`): the gateway never sends them.
- Several locks are modelled by what they let happen: operations as a whole in `SerialRuns`, every order of steps in `Interleaving`, two critical sections of a knock in `Knock`.
- Duration.Parse: decimal fractions are cut to whole nanoseconds exactly, without the rounding of float64 and the overflow of int64; only ASCII letters are lower-cased, other letters are refused either way.
- Limiter.Compact: the shared backing array of old[:0] is a buffer value, because the old slice is not used afterwards.
- GapAccounting.GapsAreAccounted: one instance, no pruning (see `Pruning`) and no restart of frps; only successful polls count, a poll whose insert fails would warn again.
- Pruning.WarnsExactlyWithPruning: frps numbers its records in the order of their times.
- Coverage.CoverageIsContinuous: about clock ticks and passes, each pass within one second; for passes that take longer see Interleaving.UndisturbedPassCovers.
- Outbox.SentIsFinal: about what the table holds; what went out is the subject of Outbox.SentIsStoredExactly.
- Ledger.Store.CreateToken: when message and hash of a new token are both known, the message counts; SQLite reports one of the two.
- OwnerHistory.AttributionLastsExactly: the second of the connection is over, so that no grant is recorded in it any more, and grants are dated when they are recorded.
- SerialRuns.PassRecovers: an admin change is the transaction and the pass as two steps, see AdminChanges.CarriedIsARun.
- Knock.Guard.KnockDoor: comparing the secret is a parameter; the check of its length belongs to configuration.
- Sessions, which follow the same pattern as gates without a capacity.
