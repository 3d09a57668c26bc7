# A verified model of the State Manager's stateful core

This project models, in Dafny, the parts of SMD (the HMS State Manager Daemon) that keep state
across requests, goroutines and instances, and proves what they are for. SQL, HTTP and Redfish are
only transport around them; the database is a set of tables with atomic, serial transactions.

| files | part of the system |
|---|---|
| `EndpointIndex.dfy`, `SyncProtocol.dfy` | the ComponentEndpoint cache: what a rebuild stores, and any number of goroutines sharing it |
| `ScnUrls.dfy`, `PatchRemove.dfy`, `ScnIndex.dfy`, `ScnHandlers.dfy`, `ScnEntries.dfy`, `ScnServer.dfy`, `ScnRows.dfy` | state change notification (SCN) subscriptions: URL lists on backing arrays, the trigger index, the handlers' critical sections, what they make of an entry, routing, and the stored subscriptions beside them |
| `CompLocks.dfy`, `CompLockStore.dfy` | component locks and reservations: the tables over every run, and each operation as a transaction |
| `Discovery.dfy`, `Heartbeat.dfy`, `Takeover.dfy` | who discovers an endpoint: the claim in the database, the in-flight map, the updater, its timing, and orphan take-over between instances |
| `Groups.dfy`, `GroupStore.dfy` | groups and partitions: exclusivity through a namespace string |
| `Jobs.dfy` | polling jobs and their take-over by other instances |
| `History.dfy` | the hardware inventory history |
| `QueryArgs.dfy` | `?` to `$n` placeholders |
| `Text.dfy`, `Collect.dfy`, `Options.dfy` | strings, sequences as sets, optional values |

`dafny verify dfyconfig.toml` checks everything.

Each part follows one pattern. The state and its operations are plain values and functions; a run is
a sequence of operations or steps, where a step that is not enabled changes nothing; an invariant is
kept by each step and so holds over every run. Where the code changes fields in place, a class does
the same with loops, and its methods are proved equal to those functions. A database call that can
fail is a parameter, so the error paths are part of every theorem.

## What the code does that its documentation does not say

- A Put rewrites only the States of the cached subscription, and a Post on a cached ID keeps the old
  Url, while the index gets the whole new subscription (`ScnHandlers.PutKeeps`, `PostCachedKeeps`;
  `PutCanDisagree` and `PostCanDisagree` give the runs). The database gives every Post a new ID, so as long
  as the cache is what is stored only the Put happens (`ScnRows.PostMatches`).
- A remove patch with a repeated value can run past the end of the list (`PatchRemove.RepeatedValuePanics`).
  The router's recoverer (cmd/smd/routers.go:58) keeps the server alive, but the lists stay cut while the index
  does not, and the lock stays held, so no later request or refresh gets through (`ScnHandlers.PanicIsForEver`).
- `InsertCompReservations` would accept a negative duration and reserve an unlocked component for
  good; the handlers never pass one (cmd/smd/smd-api.go:5917, 5950, 5994).
- A flexible lock or unlock in which the flags bar every selected component reads all reservations and lists
  every reserved component as a failure, selected or not (`CompLockStore.Store.SetCompLocks`); the handler
  drops the list, as the call ends in an error (cmd/smd/smd-api.go:5821-5828).
- One endpoint deleted during its discovery keeps the updater from refreshing any endpoint of its
  instance (`Discovery.RefreshIsAllOrNothing`, `Takeover.DeletionFailsUpdater`).
- cmd/smd/main.go:1066 starts `DiscoverySync` and `DiscoveryUpdater` only when discovery is switched
  off. That flag keeps the handlers that add or replace endpoints from starting discoveries (cmd/smd/smd-api.go:2434,
  2670), but not a patch (2546), a discovery request (4127, 4142) or a power event (cmd/smd/rfevent.go:461).
  So with the flag off all three parts run together, as modelled; with it on, discoveries run that no
  updater refreshes and no scan takes over.
- Two instances that scan before either claims both take over an orphan (`Takeover.DoubleTakeOver`);
  nothing else gets an endpoint taken over while it is being discovered (`Takeover.OnlyDoubleTakeOvers`).
- A Put is stored whole but cached in its States only, and an add patch that gives a new value twice is
  stored once and cached twice (`ScnRows.StepMatches` says exactly when cache and table part).
- A poll that is taken over while still running can leave a goroutine nobody will cancel
  (`Jobs.RestartLeaks`).
- `ToPGQueryArgs` runs a placeholder together with a digit right behind the '?'
  (`QueryArgs.PlaceholdersRead`); no query text in internal/hmsds has one there.
- Overlapping calls of `GenerateHWInvHist`, repeated locations, and deleting a FRU's history can repeat a
  detection (`History.GenerateRepeatsMeans`, `OverlapRepeats`, `DeletingAFruMeans` say exactly when).

## Assumptions

- Transactions are serial and atomic; once a statement has failed, the rest of its transaction fails
  and a commit changes nothing.
- A commit that reports an error changed nothing.
- Identifiers are already in normal form (xname parsing is not part of this model); whether a member
  or partition name is well-formed is a parameter.
- An `INSERT` checks its primary key before its other unique keys, and foreign keys last.
- Job ids and reservation keys are never reused. Groups are identified by (kind, name), which the
  table keeps unique, instead of by an internal UUID; names never change.
- In `Heartbeat` and `Takeover` database calls take no time, all clocks agree and a sleeping loop wakes on time;
  in `Heartbeat` an instance has at most one discovery of an endpoint at a time.
- In `ScnRows` the database may refuse any operation (a duplicate subscriber and Url, say); an accepted
  Post has a new ID, and a refresh reads what is stored.
- In `History` the order of the log is the order in which events were added. The stored order is a
  timestamp that defaults to the start of the transaction (migrations/postgres/9_create_version7.up.sql:31),
  so the events of one `INSERT` tie; this matters for `GenerateRepeatsMeans` and `OverlapRepeats` only where a
  location is listed more than once.
- In `Jobs` a scan may return any rows as expired, so the results do not depend on clocks.

## Model

| member | source | states |
|---|---|---|
| `QueryArgs.ToPGQueryArgs` | internal/hmsds/query-postgres.go:764-778 | The loop over the pieces between '?' produces the query numbered character by character: a definition that never splits the text |
| `QueryArgs.IthMark` | internal/hmsds/query-postgres.go:764-778 | The '?' that follows any prefix becomes '$' and one more than the number of '?' in the prefix; the text on both sides is untouched and in order |
| `QueryArgs.NumberedConcat` | internal/hmsds/query-postgres.go:764-778 | Numbering a concatenation is numbering the parts, the second one counting on from the '?' of the first |
| `QueryArgs.RecoverMeans` | internal/hmsds/query-postgres.go:764-778 | Reading `$1`, `$2`, ... back in turn gives the query exactly when the query nowhere spells out the very placeholder due there |
| `QueryArgs.RecoverNumbered` | internal/hmsds/query-postgres.go:764-778 | Every query without '$' is recovered, also when a digit follows a '?' |
| `QueryArgs.LiteralPlaceholderIsLost` | internal/hmsds/query-postgres.go:764-778 | The query `$1` itself is lost |
| `QueryArgs.PlaceholdersRead` | internal/hmsds/query-postgres.go:764-778 | Whoever reads the numbers behind the '$' of a numbered query, digit by digit as far as the digits go, finds one for each '?', and they are 1, 2, 3, ... exactly if no '?' has a digit right behind it |
| `Text.DecimalValue` | internal/hmsds/query-postgres.go:775 | A numeral stands for its number, and does not start with a zero |
| `Text.DecimalInjective` | internal/hmsds/query-postgres.go:775 | Different numbers have different numerals |
| `Text.LowerMeets` | cmd/smd/rfevent.go:1128 | Lower-casing makes exactly those strings equal that differ in the case of ASCII letters only |
| `EndpointIndex.SyncMap.LookupKey` | cmd/smd/rfevent.go:1043-1052 | The stored key or "", together with the current number |
| `EndpointIndex.SyncMap.LookupValue` | cmd/smd/rfevent.go:1054-1063 | The stored endpoint or nothing, together with the current number |
| `EndpointIndex.SyncMap.ComponentEndpointSMap` | cmd/smd/rfevent.go:1084-1116 | On a read error the old maps stay; otherwise they become the index of the rows, folded in row by row |
| `EndpointIndex.SyncMap.TrySync` | cmd/smd/rfevent.go:1029-1041 | Rebuilds exactly when the number is current and the read succeeds; a failed or late call leaves both maps and the number alone |
| `EndpointIndex.ValuesExact` | cmd/smd/rfevent.go:1084-1116 | The rebuilt store holds exactly the IDs of the rows, each with its last row |
| `EndpointIndex.UriExact` | cmd/smd/rfevent.go:1084-1116 | A (parent, URI) pair in any letter case (`Text.LowerMeets` says what that is) is found exactly when some row has it, and yields the ID of the last such row |
| `EndpointIndex.ChildrenExact` | cmd/smd/rfevent.go:1099-1114 | The children entry of a parent is the comma-joined list of its rows' IDs in row order, and exists exactly when there is one |
| `EndpointIndex.ChildrenSplit` | cmd/smd/rfevent.go:1218-1263 | Splitting the children entry at commas gives exactly the IDs of the parent's rows in database order |
| `SyncProtocol.TwoRoundsSuffice` | cmd/smd/rfevent.go:1163-1211 | In every interleaving of any number of calls, rebuilds and database changes: if the answer stays in the database from a call's first successful probe on, a call that ends without a database error returns it, whoever did the rebuilds. A lookup by ID then returns an endpoint with that ID; on names that cannot be mixed up, a lookup by URI the ID of an endpoint with that parent and URI, and a lookup of children the IDs of all endpoints with that parent, as the database had them at some moment |
| `SyncProtocol.HeldById` | cmd/smd/rfevent.go:1279-1325 | For a lookup by ID of anything but a CabinetPDUController, "held" is just that the ID is in the database, and the answer then has that ID |
| `SyncProtocol.HeldChildrenOfPdu` | cmd/smd/rfevent.go:1218-1263 | For a CabinetPDUController's children, "held" is just that some row has it as parent, and the answer then is the list of its children |
| `SyncProtocol.InvApply` | cmd/smd/rfevent.go:1123-1325 | Every single step of every goroutine, and every database change, keeps the lock, history and per-call invariants |
| `SyncProtocol.ReturnedFromVersion` | cmd/smd/rfevent.go:1163-1211 | What a finished call returned is what the cache version with the number it last read answers |
| `SyncProtocol.VersionsWereStored` | cmd/smd/rfevent.go:1084-1116 | In every run each version of the cache after the empty one is the index of the database as it was at some earlier moment |
| `SyncProtocol.ReturnedWasStored` | cmd/smd/rfevent.go:1163-1211 | A finished call never returns what was never stored: an endpoint has the ID asked for, and (on names that cannot be mixed up) the ID returned for a URI, or the list of children, is the database's own answer at some moment |
| `SyncProtocol.AskByUri` | cmd/smd/rfevent.go:1123-1160 | The index of a database answers a URI lookup with the ID of the last endpoint with that parent and URI in any letter case, and with nothing exactly when there is none |
| `SyncProtocol.AskById` | cmd/smd/rfevent.go:1163-1211 | It answers a lookup by ID with the last endpoint stored under it, and with nothing exactly when there is none |
| `SyncProtocol.AskChildren` | cmd/smd/rfevent.go:1218-1263 | It answers a lookup of children with the IDs of all of them, and with nothing exactly when there is none |
| `SyncProtocol.CheckDecides` | cmd/smd/rfevent.go:1279-1325 | The database test sends a call on exactly when some endpoint has that ID, or for a CabinetPDUController that parent |
| `SyncProtocol.NotInDbWasUnknown` | cmd/smd/rfevent.go:1279-1325 | In every run a call that ends with "not in the database" was right about some moment of the run |
| `SyncProtocol.SurvivesTwoErrors` | cmd/smd/rfevent.go:1279-1325 | In every run a call without a driver error that had at most two failed reads does not fail |
| `SyncProtocol.ThreeErrorsFail` | cmd/smd/rfevent.go:1279-1325 | Three failed reads in a row, of the database test or of the rebuild, end a call, and so does one driver error |
| `SyncProtocol.SyncNumCountsRebuilds` | cmd/smd/rfevent.go:1029-1041 | At every moment of every run the number is the number of steps so far that stored rebuilt maps |
| `SyncProtocol.SameNumberSameSnapshot` | cmd/smd/rfevent.go:1029-1063 | Two moments of a run with the same number have the same cache |
| `SyncProtocol.OneRebuildPerNumber` | cmd/smd/rfevent.go:1029-1041 | Of all calls of TrySync with one number, at most one rebuilds: two rebuilds of a run had different numbers, the later one the greater |
| `SyncProtocol.InstalledGrows` | cmd/smd/rfevent.go:1029-1041 | Along every run the installed versions are only ever added to and the number never goes down |
| `SyncProtocol.UninterruptedTrySync` | cmd/smd/rfevent.go:1029-1041 | The protocol's three lock steps, run in one go, do what the method TrySync does |
| `SyncProtocol.CallsEnd` | cmd/smd/rfevent.go:1163-1325 | In every run one goroutine's lookup takes at most as many actions as the bound of a fresh call, whatever the others do |
| `SyncProtocol.ActionShrinks` | cmd/smd/rfevent.go:1163-1325 | Every action of a call lowers the bound on the actions it still takes |
| `SyncProtocol.NobodyIsStuck` | cmd/smd/rfevent.go:1029-1063 | From every reachable state the holder of the write lock can act, and with the lock free every unfinished call can |
| `ScnUrls.AddScnUrl` | cmd/smd/main.go:248-262 | The in-place loop on the backing array raises the URL's count, or appends it with count one; nothing else in the list changes |
| `ScnUrls.RemoveScnUrl` | cmd/smd/main.go:266-277 | Ranging over the original length while the list shrinks in place stays in range and removes exactly one count, dropping the URL at one, for every list of distinct URLs |
| `ScnUrls.DeleteCell` | cmd/smd/main.go:266-277 | The re-slice moves the later cells down in the shared array and leaves the last one behind stale |
| `ScnUrls.AddCounts` | cmd/smd/main.go:248-262 | Adding raises the count of that URL by one and of no other, and keeps the URLs distinct |
| `ScnUrls.AddKeepsOrder` | cmd/smd/main.go:248-262 | A new URL goes behind the others, and whatever is listed stays in its place |
| `ScnUrls.RemoveCounts` | cmd/smd/main.go:266-277 | Removing lowers the count of a listed URL by one and of no other |
| `ScnUrls.RemoveKeepsOk` | cmd/smd/main.go:266-277 | Removing keeps the URLs distinct and every count at least one |
| `ScnUrls.RemoveKeepsOrder` | cmd/smd/main.go:266-277 | Removing keeps the order of the URLs and loses at most the removed one |
| `ScnUrls.RemoveUndoesAdd` | cmd/smd/main.go:248-277 | Removing right after adding gives the very same list back |
| `PatchRemove.RemoveShared` | cmd/smd/smd-api.go:4631-4677 | The nested loops over the stale copy and the shrinking list, which share one array: they panic exactly when the patch is not safe; in either case the array then holds the list without the first occurrence of each patch value dealt with, and behind it the values left behind |
| `PatchRemove.PanicLeavesItCut` | cmd/smd/smd-api.go:4631-4677 | A patch that panics has cut at least one value out of the list before |
| `PatchRemove.DistinctIsSafe` | cmd/smd/smd-api.go:4631-4677 | Distinct patch values never go out of range, and exactly those the list holds are taken out |
| `PatchRemove.PatchSafeMeans` | cmd/smd/smd-api.go:4631-4677 | For any patch: it runs through exactly when no value is looked for again after it was used up and left behind at the end of the array |
| `PatchRemove.PatchConserves` | cmd/smd/smd-api.go:4631-4677 | What is left of the list and what was taken out make up the old list, repeats included |
| `PatchRemove.RepeatedValuePanics` | cmd/smd/smd-api.go:4631-4677 | Removing "b" twice from ["a", "b"] runs past the end of the shrunken list |
| `ScnIndex.Appended` | cmd/smd/smd-api.go:4277-4284 | A new subscription added to list and index keeps every count right |
| `ScnIndex.Deleted` | cmd/smd/smd-api.go:4728-4754 | A subscription taken out of list and index keeps every count right, and every inner map written to exists |
| `ScnIndex.Swapped` | cmd/smd/smd-api.go:4442-4453 | When the index trades an entry for one subscription and the list trades it for another, they agree afterwards exactly when the two ask for the same |
| `ScnIndex.Curtailed` | cmd/smd/smd-api.go:4631-4677 | When an entry loses triggers and the index does not, they agree afterwards exactly when nothing was lost |
| `ScnIndex.SameHoldingMeans` | cmd/smd/main.go:280-353 | Two subscriptions ask for the same exactly when their triggers are equal, repeats included, and their URLs are, unless there is no trigger |
| `ScnIndex.Rebuilt` | cmd/smd/main.go:356-379 | An index built from scratch has, for every trigger and URL, the number of occurrences in the list |
| `ScnIndex.WithdrawUndoesEnter` | cmd/smd/main.go:280-353 | Removing a subscription right after adding it gives every URL list back, in order and counts |
| `ScnIndex.Routing` | cmd/smd/job-types.go:166-215 | When index and list agree, the URLs under a trigger are exactly those of the subscriptions holding it, each once |
| `ScnHandlers.StepKeeps` | cmd/smd/smd-api.go:4242-4754 | Every critical section keeps writes out of nil inner maps, keeps index and list in agreement exactly when it is faithful (see the next rows), and leaves the lock held exactly when it panics |
| `ScnHandlers.RefreshAgrees` | cmd/smd/main.go:356-379 | A refresh makes index and list agree, whatever they were |
| `ScnHandlers.PostCachedKeeps` | cmd/smd/smd-api.go:4265-4276 | A Post on a cached ID keeps agreement exactly when it repeats the cached Url or has no trigger: the list keeps the old Url |
| `ScnHandlers.PutKeeps` | cmd/smd/smd-api.go:4442-4453 | A Put keeps agreement exactly when it brings the cached triggers other than States, and the cached Url (or no trigger): the list gets only the States |
| `ScnHandlers.SwapCounts` | cmd/smd/smd-api.go:4442-4453 | Whatever the list gets, each count of the index falls by the cached triggers and rises by those of the new subscription |
| `ScnHandlers.PatchAddKeeps` | cmd/smd/smd-api.go:4567-4630 | An add patch always keeps agreement: list and index get the same values, repeats included |
| `ScnHandlers.PatchRemoveKeeps` | cmd/smd/smd-api.go:4631-4677 | A remove patch keeps agreement exactly when it does not panic; a panic leaves the lists cut so far cut, the index as it was, and the lock held |
| `ScnHandlers.PatchReplaceKeeps` | cmd/smd/smd-api.go:4678-4704 | A replace patch always keeps agreement |
| `ScnHandlers.DeleteKeeps` | cmd/smd/smd-api.go:4728-4754 | A delete always keeps agreement |
| `ScnHandlers.RunsAgree` | cmd/smd/smd-api.go:4242-4754 | After any run of faithful operations (a Post or Put as above, a remove patch that does not panic, any other) every reference count is the number of trigger occurrences in the cached list |
| `ScnHandlers.StuckMeans` | cmd/smd/smd-api.go:4542-4704 | A run ends with the lock held for ever exactly when one of its operations was a remove patch that panicked |
| `ScnHandlers.StuckStays` | cmd/smd/smd-api.go:4542-4704 | From then on no operation changes anything |
| `ScnHandlers.PanicIsForEver` | cmd/smd/smd-api.go:4631-4677 | The first panic of a run that was faithful so far leaves list and index in disagreement, whatever is asked for later |
| `ScnHandlers.PanicTakesTrigger` | cmd/smd/smd-api.go:4631-4677 | The entry a panicking patch leaves behind has fewer triggers than before |
| `ScnHandlers.PutCanDisagree` | cmd/smd/smd-api.go:4442-4453 | After the first Post of a run every Put that changes more than States makes list and index disagree |
| `ScnHandlers.PostCanDisagree` | cmd/smd/smd-api.go:4265-4276 | So does every Post on the cached ID with another Url and a trigger |
| `ScnHandlers.RoleChangeIsMore` | cmd/smd/smd-api.go:4442-4453 | Giving a subscription its first role is such a Put |
| `ScnHandlers.NotifiesSubscribers` | cmd/smd/job-types.go:145-215 | After any such run a notification goes to exactly the URLs of the cached subscriptions that ask for what it is about, to each once: those with a state like its state in any letter case; if it has no state, those with a role like its role; if neither, a sub-role; if none of these, a software status; and if it only says something about the enabled flag, those with theirs set |
| `ScnEntries.ListAfter` | cmd/smd/smd-api.go:4242-4754 | The cached list after each operation, field by field: which entry is added, rewritten or gone, which of its fields come from the request and which stay, and that every other entry is as it was |
| `ScnEntries.AddMeans` | cmd/smd/smd-api.go:4567-4630 | After an add patch each list is the old one and behind it each given value it lacked, as often as given; the flag is set only from false by true |
| `ScnEntries.RemoveMeans` | cmd/smd/smd-api.go:4631-4677 | After a remove patch that runs through each value is in each list once less for each time it is given; the flag is cleared only from true by true |
| `ScnEntries.ReplaceMeans` | cmd/smd/smd-api.go:4678-4704 | After a replace patch each list and the flag is the given one if there is one, and the old one otherwise |
| `ScnEntries.CutMeans` | cmd/smd/smd-api.go:4631-4677 | A remove patch that panics does so in one of states, roles, sub-roles, software status: the lists before it in this order are done, that one is cut as far as the loop got, the later ones and the flag are untouched |
| `ScnServer.Server.AddMapSubscription` | cmd/smd/main.go:280-330 | The branches over the trigger kinds put exactly the subscription's triggers into the index |
| `ScnServer.Server.RemoveMapSubscription` | cmd/smd/main.go:333-353 | They take exactly the subscription's triggers out, given that the inner maps exist |
| `ScnServer.Server.Refresh` | cmd/smd/main.go:356-379 | A failed read, or a lock held for ever, changes nothing; otherwise list and index are rebuilt |
| `ScnServer.Server.Post` | cmd/smd/smd-api.go:4242-4284 | The critical section of a Post does what the operation Post does |
| `ScnServer.Server.Put` | cmd/smd/smd-api.go:4419-4455 | The critical section of a Put does what the operation Put does |
| `ScnServer.Server.DoPatch` | cmd/smd/smd-api.go:4542-4704 | The critical section of a patch does what the operation on its kind does; it panics exactly for an unsafe remove patch, and then the lock stays held |
| `ScnServer.Server.PatchAdd` | cmd/smd/smd-api.go:4567-4630 | The add branch does what its operation does |
| `ScnServer.Server.PatchRemove` | cmd/smd/smd-api.go:4631-4677 | The remove branch does what its operation does, panicking exactly when one of the four lists would be overrun |
| `ScnServer.Server.CutLists` | cmd/smd/smd-api.go:4634-4669 | The four lists are cut in place one after the other; at a panic the earlier ones are fully cut, the current one partly, and the later ones not at all |
| `ScnServer.Server.PatchReplace` | cmd/smd/smd-api.go:4678-4704 | The replace branch does what its operation does |
| `ScnServer.Server.Delete` | cmd/smd/smd-api.go:4728-4754 | The critical section of a delete does what the operation Delete does |
| `ScnServer.Server.DeleteAll` | cmd/smd/smd-api.go:4290-4309 | Deleting all does what the operation DeleteAll does |
| `ScnServer.Server.Notify` | cmd/smd/job-types.go:145-215 | The senders started are the listed URLs of the chosen trigger, in order |
| `ScnRows.PatchRow` | internal/hmsds/hmsds-tx-postgres.go:4501-4657 | The loops on the row read from the database produce the patched row; a remove patch here ranges over the list as it is by then and cannot overrun it |
| `ScnRows.GrowMeans` | internal/hmsds/hmsds-tx-postgres.go:4525-4576 | Adding value by value gives the cached result (the new values appended, repeats included) exactly when no new value is given twice, and fewer values otherwise |
| `ScnRows.RowMeans` | internal/hmsds/hmsds-tx-postgres.go:4525-4640 | The patched row, field by field: as the cached entry, but each added value is there only once |
| `ScnRows.StepMatches` | cmd/smd/smd-api.go:4242-4754 | An operation the database accepts keeps the cached list equal to the stored subscriptions exactly when it is lossless: a Put that changes States only, an add patch without a new value given twice, a remove patch that runs through or panics with nothing left to do, or any other operation |
| `ScnRows.RunsMatch` | cmd/smd/smd-api.go:4242-4754 | Over every run whose accepted operations are lossless the cached list is what is stored |
| `ScnRows.RefreshMatches` | cmd/smd/main.go:356-379 | A refresh makes the list what is stored again, whatever it was, as long as no remove patch has panicked |
| `ScnRows.CutIsWhole` | cmd/smd/smd-api.go:4631-4677 | A list cut short by a panic is the stored one exactly when none of the values not dealt with is still in it |
| `CompLocks.NextKeepsSafe` | internal/hmsds/hmsds-postgres.go:4268-4899 | Every transaction keeps the tables safe (no reserved component disabled; a lasting reservation only on a locked, an expiring one only on an unlocked component; keys name their component), except exactly a reservation with a negative duration that reserves something |
| `CompLocks.RunsAreSafe` | internal/hmsds/hmsds-postgres.go:4268-4899 | Over every run of lock, unlock, disable, repair, reserve, renew, release, expire, with non-negative durations, the tables are safe |
| `CompLocks.NegativeDurationIsUnsafe` | internal/hmsds/hmsds-tx-postgres.go:5191-5247 | A negative duration makes a lasting reservation on an unlocked component |
| `CompLocks.ReserveBarMeans` | internal/hmsds/hmsds-postgres.go:4289-4318 | A component can be reserved for good just if it is locked, for a time just if it is unlocked, and never when disabled; which reason outranks which |
| `CompLocks.LockBarMeans` | internal/hmsds/hmsds-postgres.go:4788-4823 | A component can be locked or unlocked just if it is not so already and is not disabled; being so already outranks being disabled |
| `CompLockStore.Store.InsertCompReservations` | internal/hmsds/hmsds-postgres.go:4369-4383 | On error nothing changes; without one exactly the selected components that are enabled, not reserved, and locked just for a lasting reservation get a new one, which expires `duration` from now or never and has a key of the component's own, and every other row stays; success names these, failure the other ones, each with its reason; a rigid request reserved all of them; with all calls fine it succeeds exactly when something was selected and a rigid one can have it all |
| `CompLockStore.Store.InsertHelper` | internal/hmsds/hmsds-postgres.go:4268-4362 | Every selected component ends, as a set, in exactly one of success and failure, also when the insert hit a key conflict; each failure gives the reason |
| `CompLockStore.Store.PickReservable` | internal/hmsds/hmsds-postgres.go:4289-4318 | The loop picks exactly the components whose flags allow the reservation; a rigid request ends at the first that does not, with an error about its flags |
| `CompLockStore.Store.AccountInserts` | internal/hmsds/hmsds-postgres.go:4319-4362 | Equal lengths of picked and inserted components mean equal sets; otherwise the difference is reported as failures |
| `CompLockStore.Store.DeleteCompReservations` | internal/hmsds/hmsds-postgres.go:4479-4494 | On error nothing changes; without one exactly the reservations whose keys are given are gone, or none if a key is empty, and every other row stays; success and failure together number the keys; with keys that belong to their components success is exactly what was released and failure the other requests; a rigid release without error released as many reservations as there are keys and reports no failure |
| `CompLockStore.Store.DeleteHelper` | internal/hmsds/hmsds-postgres.go:4389-4437 | In flexible mode a refused or failed statement is only reported as failures, never returned; in rigid mode it is an error |
| `CompLockStore.Store.DeleteCompReservationsForce` | internal/hmsds/hmsds-postgres.go:4442-4474 | Without keys: exactly the reservations of the selected components go; success is exactly the selected components that were reserved, failure the others; a rigid one needs all of them reserved |
| `CompLockStore.Store.DeleteCompReservationsExpired` | internal/hmsds/hmsds-postgres.go:4497-4512 | Removes exactly the reservations whose expiry is not after now, leaves the others as they are, and returns the components of those removed |
| `CompLockStore.Store.UpdateCompReservations` | internal/hmsds/hmsds-postgres.go:4565-4622 | Renewal sets the new expiry for exactly the expiring reservations the keys name and leaves every other row as it is; with keys that belong to their components the report is exact; the counts add up to the keys; rigid is all or nothing |
| `CompLockStore.KeyReportExact` | internal/hmsds/hmsds-postgres.go:4412-4437 | The report on keys is exact when every component found was requested, also by the equal-length shortcut (a pigeonhole argument), and precisely when it is |
| `CompLockStore.RigidNamesAll` | internal/hmsds/hmsds-postgres.go:4407-4411 | When a release finds as many reservations as there are keys, every key given is that of one of them |
| `CompLockStore.Store.SetCompLocks` | internal/hmsds/hmsds-postgres.go:4785-4899 | Lock and unlock: an error changes nothing; without one exactly the selected components that were enabled, not reserved and not so already have the flag, every other row stays, and the others selected are the failures, each with its reason; a rigid one changed all. A flexible one that fails names all selected components, and others exactly when the flags bar every selected one and some other component is reserved |
| `CompLockStore.Store.LeaveOutReserved` | internal/hmsds/hmsds-postgres.go:4824-4855 | Reserved components are left out and reported; with no selected component left by the flags, a flexible request reports every reserved component there is |
| `CompLockStore.Store.PickLockable` | internal/hmsds/hmsds-postgres.go:4788-4823 | The loop picks exactly the components whose flags allow the change; a rigid request ends at the first that does not, with an error about its flags |
| `CompLockStore.Store.SetCompDisabled` | internal/hmsds/hmsds-postgres.go:4730-4784 | Disable removes the selected components' reservations and sets their flag, repair clears their flag; nothing else changes; both change all selected components or nothing |
| `CompLockStore.Store.InsertCompReservationsTx` | internal/hmsds/hmsds-tx-postgres.go:5191-5247 | Adds reservations for those without one and returns exactly these |
| `CompLockStore.Store.DeleteCompReservationsTx` | internal/hmsds/hmsds-tx-postgres.go:5252-5304 | Refuses an empty or missing key unless forced; otherwise removes exactly the reservations the keys name |
| `CompLockStore.Store.UpdateCompReservationsTx` | internal/hmsds/hmsds-tx-postgres.go:5414-5472 | Refuses an empty or missing key; otherwise renews exactly the expiring reservations the keys name |
| `Discovery.DiscoveryMap.Add` | cmd/smd/main.go:496-505 | Raises the count of the id, from zero if it has no entry |
| `Discovery.DiscoveryMap.Remove` | cmd/smd/main.go:509-520 | Lowers the count and drops the entry at one |
| `Discovery.DropUndoesAdd` | cmd/smd/main.go:496-520 | Removing right after adding restores the map |
| `Discovery.Endpoints.UpdateRFEndpointForDiscover` | internal/hmsds/hmsds-postgres.go:2303-2341 | Claims exactly the endpoints not yet started (all when forced), or none when one is unknown or repeated; without force nothing is claimed exactly when all are being discovered |
| `Discovery.ClaimTakesAll` | cmd/smd/discover.go:48-125 | In the protocol a claim starts a discovery of each endpoint asked for that is not being discovered (of all of them when forced) and of nothing else |
| `Discovery.ThroughAndDone` | cmd/smd/discover.go:178-243 | A discovery that runs through leaves the map as it was and the endpoint with its final status |
| `Discovery.InvNext` | cmd/smd/discover.go:178-203 | Every step of every instance keeps: the map counts what is in flight, it holds still under the updater's mutex, and every started endpoint has a discovery under way or lost |
| `Discovery.MapCountsInFlight` | cmd/smd/main.go:496-520 | In every interleaving the count of an endpoint on an instance is the number of its discoveries there between add and remove, and it has an entry exactly when there is one |
| `Discovery.UpdaterIsHonest` | cmd/smd/main.go:525-553 | In every run an updater turns an endpoint back to started only while a discovery of it is in flight on that instance |
| `Discovery.StartedHasOwner` | cmd/smd/discover.go:54-103 | In every run a started endpoint has a live discovery, or one that was lost: skipped as invalid after its claim, or gone with its instance or its final write |
| `Discovery.RefreshIsAllOrNothing` | cmd/smd/main.go:534-543 | The updater's call refreshes every endpoint in its map, or, when one was deleted from the database, none |
| `Discovery.RightfulKeepsExclusive` | internal/hmsds/hmsds-postgres.go:2318-2330 | A step keeps "at most one live discovery per endpoint, shown as started" exactly when it forces no claim on, and deletes no, endpoint with a live discovery |
| `Discovery.OneDiscoveryAtATime` | cmd/smd/discover.go:131-176 | Over every run of such steps no endpoint is discovered twice at a time |
| `Discovery.OrderMatters` | cmd/smd/discover.go:220-243 | If the final status were stored before the removal from the map, the updater could turn the finished endpoint back to started with no discovery left |
| `Discovery.ForceDiscoversTwice` | cmd/smd/discover.go:131-176 | A forced claim of an endpoint in discovery is a run with two discoveries of it at a time |
| `Discovery.DeletionIsReached` | cmd/smd/main.go:525-553 | Some run gets the updater to hold an id that is no longer in the table |
| `Heartbeat.LiveIsNeverOrphan` | cmd/smd/main.go:457-553 | In every timed run a live discovery's last attempt is at most 20 minutes and 30 seconds per failure in the longest row of updater failures old; with at most 19 in a row no scan takes it over |
| `Heartbeat.BoundIsTight` | cmd/smd/main.go:457-553 | For every number of failures some run reaches exactly that age, so a live discovery can be taken for an orphan exactly when 20 calls in a row fail |
| `Heartbeat.ComesAndGoes` | cmd/smd/main.go:496-520 | A discovery that is over at once leaves no trace in the timed state |
| `Takeover.InvNext` | cmd/smd/main.go:457-553 | Every step of any number of instances on one clock (claim, finish, refresh, scan, take-over, deletion, crash) keeps the age bounds of all live discoveries and the freshness of whatever is about to be taken over |
| `Takeover.LiveIsNeverOrphaned` | cmd/smd/main.go:457-491 | In every such run with at most 19 updater failures in a row no scan of any instance finds an endpoint orphaned that is being discovered anywhere |
| `Takeover.OnlyDoubleTakeOvers` | cmd/smd/main.go:449-491 | And a take-over claims such an endpoint only if it was claimed at that very instant, after the scan: the race that the comment on DiscoverySync admits |
| `Takeover.DoubleTakeOver` | cmd/smd/main.go:449-491 | The race happens: a run without a failure in which two instances take over one orphan |
| `Takeover.OrphanIsTakenOver` | cmd/smd/main.go:457-491 | A scan misses no orphan: an endpoint started and not refreshed for half an hour is claimed by whoever scans, right away |
| `Takeover.BeatRefreshes` | cmd/smd/main.go:525-553 | An updater that gets through refreshes exactly the endpoints in flight on its instance and sleeps for twenty minutes |
| `Takeover.ClaimedAndFinished` | cmd/smd/discover.go:131-243 | A discovery that ends frees its endpoint; one whose final status cannot be stored leaves the claim behind |
| `Takeover.DeletionFailsUpdater` | internal/hmsds/hmsds-postgres.go:2303-2320 | An endpoint in flight that was deleted makes every call of its updater fail: nothing of the instance is refreshed and the failures in a row add up |
| `Groups.NamespaceIsClash` | internal/hmsds/hmsds-postgres.go:3646-3651 | Namespace strings are equal exactly for the same group, two partitions, or two groups with the same exclusive-group name; labels cannot imitate them because they hold no '%' |
| `Groups.InvNext` | migrations/postgres/3_create_version1.up.sql:215-237 | Every operation keeps names valid, memberships in their group's namespace, and (component, namespace) unique |
| `Groups.AtMostOne` | internal/hmsds/hmsds-postgres.go:3635-4143 | In every run a component is in at most one partition and in at most one group per exclusive-group name |
| `Groups.JoinRule` | internal/hmsds/hmsds-tx-postgres.go:5015-5051 | In every run components can join a group exactly when they are known, named once, not in it, not in a second partition, and not in a second group with the same exclusive-group name: the constraint rules out nothing else |
| `Groups.SetInstallsExactly` | internal/hmsds/hmsds-postgres.go:3877-3932 | Setting the members leaves the group with exactly the given ones or changes nothing, and touches no other group |
| `Groups.SetRule` | internal/hmsds/hmsds-postgres.go:3877-3932 | It is refused exactly for an unknown or repeated component, one in another partition, or one in another group with the same exclusive-group name; being a member already is no obstacle |
| `Groups.FilterIsExact` | internal/hmsds/hmsds-tx-postgres.go:5088-5129 | Counting rows of the self-join selects exactly the members also in the other group, or exactly those in no other partition |
| `Groups.InsertMeans` | internal/hmsds/hmsds-postgres.go:3635-3659 | In every run a new group comes with exactly the given members and changes no other, or nothing changes: when it exists, a name is not valid, or a component is unknown, repeated or shut out |
| `Groups.AddMemberMeans` | internal/hmsds/hmsds-postgres.go:3807-3844 | In every run adding a member adds this one and no other, or nothing changes, exactly when it is unknown or shut out |
| `Groups.DeleteMemberMeans` | internal/hmsds/hmsds-postgres.go:3848-3870 | Deleting a member takes out this one and no other |
| `Groups.DeleteMeans` | internal/hmsds/hmsds-postgres.go:3773-3798 | Deleting a group takes out its members and no other group's |
| `GroupStore.Store.InsertMembersTx` | internal/hmsds/hmsds-tx-postgres.go:5015-5051 | All rows go in or none; it succeeds exactly when the database can accept them all, and the error names a real reason |
| `GroupStore.Store.InsertRows` | internal/hmsds/hmsds-postgres.go:184-202 | Row by row, the first conflict ends it: a membership that exists is a duplicate key, a taken namespace an exclusivity error of the right kind |
| `GroupStore.Store.Insert` | internal/hmsds/hmsds-postgres.go:3635-3659 | Creates the group with all its members or changes nothing |
| `GroupStore.Store.AddMember` | internal/hmsds/hmsds-postgres.go:3807-3844 | Adds the one member or changes nothing; an unknown group is reported as such |
| `GroupStore.Store.DeleteMember` | internal/hmsds/hmsds-postgres.go:3848-3870 | Removes the one member and says whether it was there |
| `GroupStore.Store.SetGroupMembers` | internal/hmsds/hmsds-postgres.go:3877-3932 | Delete all and insert in one transaction does what the operation says, or changes nothing |
| `GroupStore.Store.Delete` | internal/hmsds/hmsds-postgres.go:3773-3798 | Deletes the group with its memberships and says whether it was there |
| `Jobs.Table.InsertJob` | internal/hmsds/hmsds-postgres.go:4913-4945 | Adds an incomplete row for the component with a new id, or fails when the component is empty or has a row already |
| `Jobs.Table.DeleteJob` | internal/hmsds/hmsds-postgres.go:5027-5051 | True exactly when the row was there |
| `Jobs.Runner.DoStateRFPoll` | cmd/smd/state-change.go:363-382 | Enters the new job in both tables, or nothing on an error |
| `Jobs.Runner.CancelStateRFPoll` | cmd/smd/state-change.go:592-607 | Sends one signal to the component's job and takes it out of both tables and the database; nothing when there is none |
| `Jobs.Runner.SyncJob` | cmd/smd/main.go:414-433 | Remakes a job only when its own delete reported true and the job was not complete: then, unless the component has another row, a new row and a poll under its id are here; otherwise at most the old row has gone |
| `Jobs.OneSuccessor` | cmd/smd/main.go:402-447 | In every run of any number of instances a row is deleted by at most one take-over and gets at most one successor |
| `Jobs.OneRowPerComponent` | migrations/postgres/6_create_version4.up.sql:27-39 | In every run no component has two job rows |
| `Jobs.TablesAgree` | cmd/smd/state-change.go:363-382 | In every run each poll is in the job list under its id, no job is listed on two instances, and no job is signalled twice |
| `Jobs.BackedUnlessStolen` | cmd/smd/main.go:414-433 | The converse (every listed job is its component's poll and has its row) is kept by a step exactly when the step does not take over a job that is still running |
| `Jobs.RunsStayBacked` | cmd/smd/main.go:402-447 | Over every run that takes over no running job that converse holds |
| `Jobs.UnnamedIsNeverSignalled` | cmd/smd/state-change.go:592-607 | A job that no poll names is never signalled again, in any run from then on |
| `Jobs.RestartLeaks` | cmd/smd/state-change.go:363-382 | Starting a poll over a stale entry leaves the stale job listed, unnamed, and never signalled in any later run |
| `Jobs.LeakIsReached` | cmd/smd/main.go:402-447 | Two instances get there: start, scan, take over, start again |
| `Jobs.TakeOverRemakes` | cmd/smd/main.go:402-447 | Taking over a found row that is still there and not complete replaces it by a new one, polled here, and leaves every other instance alone |
| `Jobs.FinishedIsCleared` | cmd/smd/main.go:402-447 | A finished job that a scan finds is cleared away and not remade |
| `Jobs.NothingToRemake` | cmd/smd/main.go:402-447 | A row that is complete, or gone, or cannot be deleted is not remade |
| `Jobs.CancelUndoesStart` | cmd/smd/state-change.go:592-607 | Starting a poll and cancelling it leaves rows and tables as they were, and the job signalled once |
| `History.Store.GetHWInvHistLastEvents` | internal/hmsds/hmsds-tx-postgres.go:2500-2536 | Returns exactly the last event of each asked location that has one, each once |
| `History.Store.InsertHWInvHists` | internal/hmsds/hmsds-tx-postgres.go:2575-2609 | Appends all events, or none when one has no FRU id or the store fails |
| `History.Store.GenerateHWInvHist` | cmd/smd/discover.go:865-909 | The two loops and the map append exactly the news judged by the log before the call, or nothing on an error |
| `History.NoRepeatsSnoc` | cmd/smd/discover.go:897-902 | One more event makes a repeat exactly if it is Detected and equals its location's last event |
| `History.NewsKeepNoRepeats` | cmd/smd/discover.go:865-909 | On distinct locations a call never makes two adjacent Detected events with the same FRU at one location |
| `History.GenerateRepeatsMeans` | cmd/smd/discover.go:865-909 | On any locations a call leaves no repeat exactly when no entry is the same news as the last entry before it that is news of its location |
| `History.NewsConcat` | cmd/smd/discover.go:886-903 | The news of a list are those of its parts, in order |
| `History.NewsOfOne` | cmd/smd/discover.go:886-903 | One entry is news as a detection of its FRU exactly if it has one that the location's last event has not detected |
| `History.SameCallTwice` | cmd/smd/discover.go:876-908 | Two overlapping calls on the same distinct locations leave no repeat exactly when there was nothing to add |
| `History.SharedLocationRepeats` | cmd/smd/discover.go:876-908 | Two overlapping calls that share a location which is news leave a repeat |
| `History.NewsAreCurrent` | cmd/smd/discover.go:865-909 | Afterwards each populated location's last event is Detected with its current FRU |
| `History.SecondRunAddsNothing` | cmd/smd/discover.go:865-909 | A second call on the same locations adds nothing |
| `History.DeletingAFruMeans` | internal/hmsds/hmsds-postgres.go:1867-1880 | Deleting a FRU's history leaves no repeat exactly when its events do not hold two detections of one other FRU apart |
| `History.WithoutLocConcat` | internal/hmsds/hmsds-postgres.go:1849-1862 | What deleting by location leaves of a log is what it leaves of its parts, in order |
| `History.WithoutFruConcat` | internal/hmsds/hmsds-postgres.go:1867-1880 | The same when deleting by FRU |
| `History.WithoutOne` | internal/hmsds/hmsds-postgres.go:1849-1880 | A single event goes exactly if it is of that location, or of that FRU |
| `History.OverlapRepeats` | cmd/smd/discover.go:876-908 | Two calls on any locations that both read before either writes leave no repeat exactly when one call on both lists would leave none |
| `History.AppendMeans` | internal/hmsds/hmsds-tx-postgres.go:2575-2609 | Adding any events to a log without repeats, however late, leaves none exactly when no Detected one is, at its turn, the same as its location's last event |
| `History.QuietLocationsLand` | cmd/smd/discover.go:876-908 | A call on distinct locations may write however late if its populated locations still have the last events it has read |
| `History.AtOnce` | cmd/smd/discover.go:865-909 | A read and a write with nothing in between append the news, and leave no repeat exactly when no entry is the same news again |
| `History.RunsHaveNoRepeats` | cmd/smd/discover.go:865-909 | Over every run of calls that read and write in two transactions interleaved at will, of events added by other code, and of deletions by location, by FRU or of everything, each step meeting its exact condition beforehand, no location has a repeat |
| `History.NextNoRepeats` | cmd/smd/discover.go:865-909 | Each of these steps keeps the log without repeats exactly under its condition |
| `History.RepeatedLocationRepeats` | cmd/smd/discover.go:887-903 | A location given twice with one FRU repeats, unless that was its last detection already |
| `History.DeletingAFruCanRepeat` | internal/hmsds/hmsds-postgres.go:1867-1880 | A log without repeats that gets one by deleting a FRU's history |

## Left out

- HTTP decoding, authentication, Vault, message bus, Redfish calls, logging and start-up: transport around the modelled state.
- The text of SQL statements and the scanning of rows: replaced by functions on tables.
- `UpsertComponents`, IP patching, and the per-type discovery copies: repetitive field copying, or claims the code does not support.
- `GetCompLocksV2`, `GetCompReservations` and the other read-only queries: they add only easy members.
- Lower-casing beyond ASCII letters.
- The retries of a notification sender and its unlocked reads of the index: routing is proved for a moment at which index and list agree.
- In the index and the handlers slices are sequences: the sharing of backing arrays is modelled in `ScnUrls` and `PatchRemove`, where the code relies on it, and not for lists that no one else holds.
- `ErrHMSDSExclusiveGroup` for a duplicate label that contains the text "group_namespace" (internal/hmsds/hmsds-postgres.go:190): the model reports a duplicate key.
- The microseconds cut off a stored last-attempt time, against a margin of 30 seconds.
- The polling and keep-alive loops of a job beyond the start, cancel and take-over they cause.
- Tags, descriptions and join times of groups.
- Groups.SetInstallsExactly: the doc comment says components already in the group "stay"; the code deletes and inserts them again, which the model shows only as the resulting set.
- CompLockStore.Store.InsertCompReservations: which reservation wins when two transactions insert at once is not modelled, as transactions are serial; a conflict is a possible outcome of the statement.
