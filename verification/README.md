# A verified model of the sysrepo alarm daemon

The daemon (`src/alarms/`) implements the alarm list, shelving, inventory, summary and notifications of RFC 8632 on top
of sysrepo. It keeps the same facts twice. A cache, `m_alarms`, maps each alarm key to an `AlarmEntry` with flags, times,
shelf and a bounded history. A data tree, `m_edit`, holds the two alarm lists, the status-change list of every alarm, the
counters and the list stamps, and is what clients read. Every handler edits both by hand; nothing ever rebuilds the tree
from the cache. The central result here is that, over every run of the handlers, the incrementally edited tree mirrors
the cache leaf by leaf and history by history, and that clients read exactly that tree. The other results are about what
follows for clients: histories, placement, notifications, counts, stamps, settings and the inventory.

## How the model is laid out

| file | what it holds |
|---|---|
| `Key.dfy` | alarm keys, the XPath printer and a reader for what it prints |
| `ShelfMatch.dfy` | the first-match rule for shelves |
| `AlarmEntry.dfy` | the entry class, its update by RPC and its trimming, and their specification on values |
| `Filters.dfy` | the filter objects built from the input of purge and compress |
| `Inventory.dfy` | the inventory cache, its parsing and validation, and the verdict of the stored inventory |
| `Control.dfy` | the control settings and how a batch of configuration changes reaches them |
| `Tree.dfy` | the data tree, and its addressing by printed paths |
| `Machine.dfy` | `Render`, the tree a cache stands for; what each handler does, stated on the cache alone; the invariant |
| `Mirror.dfy` | how a single edit of the cache shows in the rendered tree |
| `Daemon.dfy` | the class `Daemon`: the mutable state and the handlers with their loops, editing cache and tree side by side |
| `Runs.dfy`, `Service.dfy` | runs of the daemon, and the handlers called over a run |
| `History.dfy`, `Listener.dfy`, `Stamps.dfy`, `LazyInventory.dfy`, `Laws.dfy`, `Selections.dfy` | properties of runs and of single handlers, on what clients read |

`Daemon.Valid()` says that the invariant `Machine.Inv` holds, that the edited tree equals `Render` of the state, that the
published tree equals the edited one, and that a store edited through printed paths only holds the same nodes. `Render`
builds the tree from scratch. Two things in it the cache does not record, and they come from history variables: which
cached changes are clears, and the published `time-created`. So the agreement of tree and cache is also stated without
them: `Mirror.TreeMirrors` compares the tree with the cache alone, `Mirror.RenderMirrors` proves it of every reachable
state, and `Service.Serve` carries it over runs. Each handler is proved to keep `Valid()`, to take the cache to the value its
specification function gives, and to push exactly when the tree differs. `Inv` holds at the start (`Runs.InitialInv`) and
after every run (`Runs.RunKeepsInv`), so a lemma that requires `Inv` holds in every reachable state.

Preconditions of a run (`Runs.Enabled`): handlers are atomic and their times strictly increase; a report that gets past
the checks needs the shelving rules to have been read, and a threshold in severity mode, because the handler
dereferences both without checking (`src/alarms/Daemon.cpp:434`, `src/alarms/Daemon.cpp:292`). `Runs.SubmitAlwaysPossible`
says when this is given. The inventory subscription asks for the data already there (`src/alarms/Daemon.cpp:197`); this is
taken to be one callback if an inventory is stored when the daemon starts. Purges also take the time at which their filter reads the clock, which is arbitrary.

History variables, used in proofs only: per alarm the full log of its changes since creation and its published creation
time, the notifications sent, the configuration, the inventories stored so far and which of them the cache was parsed
from, the inventory callbacks on their way and the notifications sent for those that ran, the number of pushes, and the
path-addressed store.

## Where the code and its documents disagree

The model follows the code.

- `yang/ietf-alarms@2019-09-11.yang:950-951` asks for silence about shelved alarms. The daemon sends the same notifications
  whatever the shelf: `Listener.ShelvingDoesNotSilence`. `Listener.ShelvedSilenceExactly` says when a shelved key stays
  silent, `Listener.ShelvedAlarmAnnounced` shows a family that does not.
- `yang/ietf-alarms@2019-09-11.yang:1212-1217` says that state changes leave `time-created` alone. Unshelving writes the
  time of unshelving, and the next recorded report writes the real creation time back: `Laws.TimeCreatedKeptExactly` says
  exactly when the leaf is kept, `Laws.TimeCreatedGoesBack` shows the failing family.
- `yang/ietf-alarms@2019-09-11.yang:721` asks for at least one status change per alarm. A limit of 0 is legal and empties
  the list: `History.HistoryEmptyExactly`, `History.HistoryNeverEmpty`; `History.LimitZeroEmpties` shows it for any alarm.
- `yang/ietf-alarms@2019-09-11.yang:914-917` does not ask for a notification when a cleared alarm comes back below the
  level. The daemon sends one if the alarm was at or above the level before it was cleared: `Listener.BeyondTheStandard`;
  `Listener.ReturnBelowIsAnnounced` shows the family.
- The printer does not escape quotes in the qualifier. Distinct keys still print differently
  (`Key.KeyPrintingInjective`), but only keys without a single quote in the qualifier read back
  (`Key.ParseInvertsPrinting`).
- `yang/ietf-alarms@2019-09-11.yang:1178-1180` offers the list stamp for resynchronization. Compressing and cutting
  histories change a list without moving its stamp: `Stamps.UntoldExactly` says exactly which steps do so, from the state
  before and the input; `Stamps.CompressionIsUntold` is a run that ends in one. `Stamps.RunStampTells` says what an
  unmoved stamp does tell over a run.
- `yang/ietf-alarms@2019-09-11.yang:697-699` lets the `last-changed` leaf of an alarm tell when its status changes last
  changed. The same two steps change them and leave the leaf: `Stamps.LastChangedExactly`, and the same run.
- The daemon rejects reports that the inventory does not allow (`src/alarms/Daemon.cpp:200-208`, section 4.2 of RFC 8632).
  But between a write to the inventory and its callback a report can be judged by an older inventory:
  `LazyInventory.OutcomeOverRuns` tells from the events of a run by which one, and exactly when the outcome is still
  right; `LazyInventory.PendingCallbackCanDiffer` shows the failing family, `LazyInventory.OutdatedAcceptance` a run.

One more property depends on the order in which the datastore reports changes, which the repository does not fix. The
loop over configuration changes stops at the first one under `alarm-shelving`, so a setting reported after it would be
missed (`Control.TracksExactlyWhenShelvingLast`). In schema order shelving comes last and nothing is missed
(`Runs.SettingsTrackConfig`); `Control.SkippedModeChange` is a hypothetical input in another order.

## Model

| member | source | states |
|---|---|---|
| `Service.Serve` | src/alarms/Daemon.cpp:70-198 | over every run from the start, the published tree is the edited tree; it is the tree rendered from scratch; it mirrors the cache, with one node per alarm in the list of its shelf, all leaves, the reversed cached history, counters and stamps; it was pushed once at the start and once per event that changes it; and the store edited through printed paths holds its nodes |
| `Service.Handle` | src/alarms/Daemon.cpp:90-198 | every subscribed handler, from any valid state, keeps cache, edited tree and published tree in agreement and takes the specified step |
| `Runs.InitialInv` | src/alarms/Daemon.cpp:70-88 | the invariant holds when the daemon starts |
| `Runs.StepKeepsInv` | src/alarms/Daemon.cpp:90-198 | every handler keeps the invariant and the clock never goes back |
| `Runs.RunKeepsInv` | src/alarms/Daemon.cpp:90-198 | so does every run |
| `Machine.SubmitKeepsInv` | src/alarms/Daemon.cpp:394-468 | a report keeps the invariant: severity in 2..6, times in order, the log increasing and without repetitions, the history a suffix of the log within the limit, placement by the rules, an inventory cache that is right or due to be rebuilt |
| `Machine.PurgeKeepsInv` | src/alarms/Daemon.cpp:488-528 | a purge keeps it |
| `Machine.CompressKeepsInv` | src/alarms/Daemon.cpp:530-563 | a compression keeps it |
| `Machine.ReshelveKeepsInv` | src/alarms/Daemon.cpp:598-646 | reshelving keeps it, with the placement by the new rules |
| `Machine.ReconfigureKeepsInv` | src/alarms/Daemon.cpp:113-179 | a batch of configuration changes keeps it, with all histories within the new limit although they are only trimmed on a decrease |
| `Machine.UpdateKeepsEntryOk` | src/alarms/Daemon.cpp:268-306 | an update keeps an entry in agreement with its full log, including when it was last raised |
| `Daemons.Daemon.constructor` | src/alarms/Daemon.cpp:70-88 | the daemon starts valid and has pushed once |
| `Daemons.Daemon.SubmitAlarm` | src/alarms/Daemon.cpp:394-468 | a report keeps the daemon valid, has the outcome and the effect on the cache that its specification gives, and pushes exactly when the tree differs |
| `Daemons.Daemon.RecordReport` | src/alarms/Daemon.cpp:434-466 | after the checks, the node at the path derived from the rules is the one to create or update; an unchanged alarm leaves cache and tree as they were |
| `Daemons.Daemon.UpdateEntry` | src/alarms/Daemon.cpp:437-438 | the cached entry after the report, the change and notification flags and the discarded times |
| `Daemons.Daemon.PublishReport` | src/alarms/Daemon.cpp:440-465 | a changed alarm shows in the tree, the tree is pushed, and the notification read from the tree is sent when due |
| `Daemons.Daemon.WriteReport` | src/alarms/Daemon.cpp:441-455 | writing the leaves, the new status change and the recount completes the tree, and the notification read off the node carries the reported severity and text |
| `Daemons.Daemon.UpdateStatusChangeList` | src/alarms/Daemon.cpp:329-369 | the new change is a new list entry, it ends up in front, and the discarded ones are found and unlinked |
| `Daemons.Daemon.PurgeAlarms` | src/alarms/Daemon.cpp:488-528 | a purge keeps the daemon valid, returns the number of alarms the input selects, rejects a bad choice without effect, and pushes exactly when the tree differs |
| `Daemons.Daemon.ErasePurged` | src/alarms/Daemon.cpp:498-512 | the erase-while-iterating loop ends, erases exactly the selected alarms from the cache and from their list, and counts them |
| `Daemons.Daemon.CompressAlarms` | src/alarms/Daemon.cpp:530-563 | a compression keeps the daemon valid, returns the number of selected alarms with more than one change, and pushes exactly when the tree differs |
| `Daemons.Daemon.CompressMatching` | src/alarms/Daemon.cpp:540-554 | the compressing loop takes every selected alarm to its newest change, in cache and tree |
| `Daemons.Daemon.Reshelve` | src/alarms/Daemon.cpp:598-646 | reshelving moves every alarm to the list and shelf of the new rules, with stamps and counts, and says whether any alarm moved |
| `Daemons.Daemon.ReshelveLoop` | src/alarms/Daemon.cpp:609-638 | the loop, in any order of the keys: the alarm list's stamp is set exactly if an alarm crosses lists, the shelf list's exactly if any alarm moves |
| `Daemons.Daemon.ReshelveOne` | src/alarms/Daemon.cpp:610-637 | one alarm: its node is found, copied and unlinked, or only its shelf name is written |
| `Daemons.Daemon.CreateCommonAlarmNodeProps` | src/alarms/Daemon.cpp:568-579 | the copy of a node has the same leaves and the same status changes in order, each created anew |
| `Daemons.Daemon.ControlChanged` | src/alarms/Daemon.cpp:113-179 | a batch of configuration changes keeps the daemon valid, has its specified effect, and pushes exactly when the tree differs |
| `Daemons.Daemon.ShrinkStatusChangesLists` | src/alarms/Daemon.cpp:371-392 | the trimming loop cuts every history to the limit in cache and tree, and reports a change exactly when a history was longer |
| `Daemons.Daemon.DiscardChanges` | src/alarms/Daemon.cpp:383-388 | every discarded time is found in the node's list, and unlinking them drops the oldest entries |
| `Daemons.Daemon.PutNode` | src/alarms/Daemon.cpp:435-436 | writing the tree and writing the path-addressed store stay in step |
| `Daemons.Daemon.UnlinkNode` | src/alarms/Daemon.cpp:510-510 | the path of a listed node is found in the path-addressed store, and unlinking keeps store and tree in step |
| `Daemons.Daemon.UpdateStatistics` | src/alarms/Daemon.cpp:677-725 | the recount yields, per severity, the numbers of alarms, of cleared and of active ones, the sizes of both lists, and stamps that are the latest of the old stamp and the changes of the list's alarms |
| `Daemons.Daemon.CountAlarms` | src/alarms/Daemon.cpp:694-712 | the counting loop tallies every alarm once, in any order |
| `Daemons.Daemon.ExternalInventoryWrite` | src/alarms/Daemon.cpp:185-198 | another session's write leaves the daemon valid, with a callback on its way |
| `Daemons.Daemon.InventoryChanged` | src/alarms/Daemon.cpp:186-194 | the callback marks the cache dirty, sends one `alarm-inventory-changed` notification and leaves the daemon valid |
| `Daemons.Daemon.RebuildInventory` | src/alarms/Daemon.cpp:648-675 | the rebuilt cache is the parse of the stored inventory |
| `Daemons.Daemon.CheckInventory` | src/alarms/Daemon.cpp:412-427 | a report is looked up in the cache, which is rebuilt first exactly if it is dirty |
| `Mirror.RecordShows` | src/alarms/Daemon.cpp:434-452 | editing the one node that the rules point to is all it takes for the lists to show a recorded report |
| `Mirror.TrimShows` | src/alarms/Daemon.cpp:311-326 | the published history is newest first, and what a trim discards from the front of the cached history are its last entries |
| `Mirror.MoveShows` | src/alarms/Daemon.cpp:613-637 | moving one alarm between lists or shelves shows as one node moved |
| `Mirror.RenderMirrors` | src/alarms/Daemon.cpp:329-725 | in every reachable state the tree mirrors the cache: one node per alarm in the list its shelf names, all leaves equal, the status changes the cached ones in reverse, the newest a clear exactly if the alarm is cleared, every clear following an active state of the cached severity; counters and stamps |
| `Mirror.RenderCounts` | src/alarms/Daemon.cpp:694-724 | the published total, cleared and not-cleared counters of each severity 2 to 6 count the nodes of the alarm list with that severity, with and without the cleared flag; the list sizes count the nodes |
| `Mirror.ClearedPlusNotCleared` | src/alarms/Daemon.cpp:714-719 | per severity, cleared and not cleared alarms add up to the total, so the unsigned subtraction cannot underflow |
| `Mirror.PurgeTreeChange` | src/alarms/Daemon.cpp:514-524 | a purge changes the published tree if and only if it removes an alarm |
| `Mirror.CompressTreeChange` | src/alarms/Daemon.cpp:556-559 | a compression changes the tree if and only if a selected alarm has more than one change, and otherwise changes nothing |
| `Mirror.ReconfigureTreeChange` | src/alarms/Daemon.cpp:166-177 | a batch changes the tree if and only if it moves an alarm or cuts a history |
| `Mirror.RecordTreeChange` | src/alarms/Daemon.cpp:440-466 | a recorded report always changes the tree |
| `Runs.Placement` | src/alarms/Daemon.cpp:434-447 | in every reachable state each alarm has the shelf that the latest rules give its key, and its node is in the list a new report on it would write to, and in no other |
| `Runs.PlacementMeetsCriteria` | src/alarms/ShelfMatch.cpp:42-72 | in every reachable state a published shelved alarm is on a shelf of the latest rules whose criteria its key meets, and no alarm that meets all criteria of a shelf is in the alarm list |
| `Runs.RulesAreLatest` | src/alarms/Daemon.cpp:598-607 | the rules in force are those of the latest batch that touched shelving |
| `LazyInventory.LazyInventoryExactly` | src/alarms/Daemon.cpp:185-225 | a report is judged by the stored inventory if the cache is dirty, and otherwise by the one the cache was parsed from, at most as many writes old as callbacks are on their way; the outcome is that of the stored inventory if and only if both give the same verdict on this report |
| `LazyInventory.OutcomeOverRuns` | src/alarms/Daemon.cpp:185-225 | over every run the events alone tell which stored inventory judges a report: the current one if no printable report came in since the start or the latest callback, otherwise the one stored when the first such report came in; the outcome is that of the current inventory if and only if both give the same verdict on the report |
| `LazyInventory.LazyInventoryAgrees` | src/alarms/Daemon.cpp:412-427 | with no callback on its way, or a dirty cache, the outcome of a report is the verdict of the stored inventory |
| `LazyInventory.PendingCallbackCanDiffer` | src/alarms/Daemon.cpp:185-198 | every report that a clean cache accepts is still accepted right after the inventory is emptied, although the stored inventory rejects it |
| `LazyInventory.OutdatedAcceptance` | src/alarms/Daemon.cpp:412-427 | a run of two reports and a write that empties the inventory, after which a third report is accepted although the stored inventory rejects it |
| `LazyInventory.WritesAreAnnounced` | src/alarms/Daemon.cpp:185-198 | over every run, each write of the inventory, and an inventory stored at the start, is announced once its callback has run: announcements and pending callbacks add up to them |
| `Runs.SettingsTrackConfig` | src/alarms/Daemon.cpp:113-165 | over runs whose batches report shelving last, mode, threshold and limit are those of the configuration |
| `Runs.SubmitAlwaysPossible` | src/alarms/Daemon.cpp:291-292 | so if the configuration meets its `must` statement and rules have been read, whatever a report dereferences is there |
| `History.ReplayAgrees` | src/alarms/Daemon.cpp:232-309 | over every run an alarm is cached exactly if the replay of its reports and purges, which consults no cached alarm, is not empty, and its log, severity and history length are those of the replay |
| `History.PublishedHistory` | src/alarms/Daemon.cpp:301-369 | over every run what clients read about an alarm follows from the events alone: whether it is published, in which list and under which shelf name; its status changes, which are the newest end, reversed, of the replayed history, strictly ordered, within the limit, as long as the sequence of limits and compressions leaves them; and every other leaf |
| `History.ShownAgrees` | src/alarms/Daemon.cpp:446-450 | over every run the published creation time is that of the history, or the time of the latest unshelving since the last recorded report |
| `History.HistoryEmptyExactly` | src/alarms/Daemon.cpp:149-163 | a step leaves an alarm without history exactly if the limit it applies is 0, or the alarm had none before |
| `History.LimitZeroEmpties` | src/alarms/Daemon.cpp:149-163 | setting the limit to 0 leaves any alarm with no published status change |
| `History.HistoryNeverEmpty` | src/alarms/Daemon.cpp:301-306 | runs that never set the limit to 0 keep a status change for every alarm |
| `History.NewestCorresponds` | yang/ietf-alarms@2019-09-11.yang:722-731 | the newest published change corresponds to the leaves of its alarm |
| `Listener.ListenerKnowledge` | src/alarms/Daemon.cpp:268-299 | over every run with a fixed mode, from an alarm's creation to its purge its notifications determine: its severity, clearance, text and change time; or that raises and clears alternate and which of them holds; or whether it is active at or above the threshold, and then severity and text |
| `Listener.RaiseAndClearAlternate` | src/alarms/Daemon.cpp:277-281 | in raise-and-clear mode the notifications about an alarm strictly alternate raise, clear, raise, from its creation, over every run |
| `Listener.EverythingIsHeard` | src/alarms/Daemon.cpp:277-278 | while the mode for all changes is in force, the notifications about an alarm created since are its replayed history change by change, whatever has been trimmed or compressed |
| `Listener.AnnouncedExactly` | src/alarms/Daemon.cpp:462-485 | exactly which reports are announced, per mode, told from the state before and the report, and that the notification shows the new state |
| `Listener.ShelvedSilenceExactly` | yang/ietf-alarms@2019-09-11.yang:942-951 | a report on a shelved key stays silent if and only if it is not accepted or its mode does not call for an announcement; its node is not in the alarm list |
| `Listener.BeyondTheStandard` | yang/ietf-alarms@2019-09-11.yang:906-931 | in severity mode the announcements are those of the standard except exactly when a cleared alarm, last at or above the level, comes back below it |
| `Listener.ReturnBelowIsAnnounced` | src/alarms/Daemon.cpp:291-294 | clearing an alarm at or above the level and then reporting it below the level sends a notification that the standard does not ask for |
| `Listener.ShelvingDoesNotSilence` | src/alarms/Daemon.cpp:462-465 | with other rules and other shelves the same report sends the same notification |
| `Listener.ShelvedAlarmAnnounced` | yang/ietf-alarms@2019-09-11.yang:942-951 | a new alarm that goes straight to a shelf is announced |
| `Stamps.StampMovesExactly` | src/alarms/Daemon.cpp:514-520 | a list's last-changed stamp moves if and only if something other than a history changes in that list |
| `Stamps.MovedStampIsNow` | src/alarms/Daemon.cpp:514-520 | a published list stamp that moves, moves to the time of the event |
| `Stamps.RunStampTells` | yang/ietf-alarms@2019-09-11.yang:1175-1181 | over every run a list stamp is the same at both ends if and only if nothing but histories changed in the list in between; then the list is the same at both ends but for histories |
| `Stamps.UntoldExactly` | yang/ietf-alarms@2019-09-11.yang:1175-1181 | a step changes a list without moving its stamp if and only if it compresses that list with something to discard, or it is a batch that moves no alarm there and lowers the limit below the length of a history there |
| `Stamps.LastChangedExactly` | yang/ietf-alarms@2019-09-11.yang:694-700 | a step changes the status-change list of an alarm and leaves its `last-changed` leaf if and only if it compresses the alarm with something to discard, or it is a batch whose limit is below the length of its history |
| `Stamps.CompressionIsUntold` | src/alarms/Daemon.cpp:540-559 | a run of two reports after which a compression changes the alarm list and leaves its stamp and the alarm's `last-changed` |
| `Stamps.RunStampsNeverDecrease` | src/alarms/Daemon.cpp:694-724 | over every run no list stamp goes back |
| `Stamps.TimestampOrder` | src/alarms/Daemon.cpp:255-305 | created <= last-raised <= last-changed <= the stamp of the alarm's list; the published creation time is the cached one exactly if it is not after the last change |
| `Laws.SummaryConserves` | src/alarms/Daemon.cpp:677-725 | per severity cleared and not cleared sum to the total, the totals sum to the number of alarms, the list sizes are those of the lists and sum to the size of the cache |
| `Laws.Addressable` | src/alarms/Daemon.cpp:403-409 | every cached key can be printed, so every node has a path |
| `Laws.LookupsHit` | src/alarms/Daemon.cpp:356-388 | in every reachable state each path that is dereferenced without a check leads to a node, every cached change can be found for unlinking, and every entry that is created is new |
| `Laws.PurgeExact` | src/alarms/Daemon.cpp:498-512 | a purge removes from its list exactly the alarms that pass every filter, leaves the other list alone, and the count is the drop in cache size |
| `Laws.PurgePartition` | src/alarms/Filters.cpp:46-65 | purging below, at and above a level, in any order, empties the list, and the counts sum to its size |
| `Selections.PurgeBySeverity` | src/alarms/Filters.cpp:46-65 | of the purged list exactly the alarms stay whose published severity is not above the level, not the level, or not below it, as the choice says |
| `Selections.PurgeByClearance` | src/alarms/Filters.cpp:31-44 | the same against the published `is-cleared` leaf; the choice of any empties the list |
| `Selections.PurgeByAge` | src/alarms/Filters.cpp:67-87 | the same against the published `last-changed` leaf, for each unit |
| `Selections.PurgeCriteriaConjoin` | src/alarms/Filters.cpp:26-29 | with several criteria an alarm stays exactly if one of them alone would let it stay |
| `Selections.PurgeRejects` | src/alarms/Filters.cpp:58-82 | a container without a choice is rejected, the severity first, and nothing is purged |
| `Laws.CompressExact` | yang/ietf-alarms@2019-09-11.yang:1282-1287 | each selected alarm is left with exactly its newest published change; every other node is unchanged |
| `Laws.CompressTwice` | src/alarms/Daemon.cpp:540-554 | a second identical compression selects nothing and changes nothing |
| `Selections.CompressSpares` | src/alarms/Filters.cpp:90-115 | an alarm that misses any one of the criteria given keeps its cached entry and its published node |
| `Selections.CompressReaches` | src/alarms/Daemon.cpp:540-554 | an alarm of the list that agrees with all criteria given keeps of its published changes only the newest |
| `Selections.CompressCounts` | src/alarms/Daemon.cpp:544-561 | the count returned is that of the nodes whose published history gets shorter |
| `Laws.ReshelveConserves` | src/alarms/Daemon.cpp:609-638 | reshelving loses no alarm, publishes it in the one list the rules give, and conserves flags, times, severity, text and history in order |
| `Laws.ReshelveTwice` | src/alarms/Daemon.cpp:640-645 | reshelving again with the same rules moves nothing and changes nothing |
| `Laws.ReshelveLatestWins` | src/alarms/Daemon.cpp:609-638 | reshelving by two sets of rules in turn leaves the alarms as the second set alone does |
| `Laws.ChangeDetectionExact` | src/alarms/Daemon.cpp:268-308 | a report is recorded if and only if its entry changes, and if and only if the tree changes; otherwise all but the clock and a rebuilt inventory cache stays |
| `Laws.SubmitIdempotent` | src/alarms/Daemon.cpp:429-466 | a report repeated as the next event changes neither cache nor tree and sends nothing |
| `Laws.RepeatIsNotRecorded` | src/alarms/Daemon.cpp:268-308 | nor does a recorded report that is repeated after any run in which no other report on its alarm was recorded and no purge took the alarm |
| `Laws.TimeCreatedKeptExactly` | yang/ietf-alarms@2019-09-11.yang:1208-1218 | while an alarm stays in the alarm list its creation time is kept if and only if the step is not a recorded report on an alarm unshelved since its last change |
| `Laws.TimeCreatedGoesBack` | src/alarms/Daemon.cpp:589-595 | any alarm unshelved and then reported with another text shows the time of unshelving and then, again, its real, earlier creation time |
| `Laws.ShownExactly` | src/alarms/Daemon.cpp:446-450 | a recorded report writes the cached creation time, and nothing else touches the leaf |
| `Alarms.AlarmEntry.UpdateByRpc` | src/alarms/Daemon.cpp:232-309 | the entry, the change flag, the notification flag and the discarded times after a report |
| `Alarms.AlarmEntry.TakeOver` | src/alarms/Daemon.cpp:241-299 | the change flag is set exactly if the alarm does not already show the report, and otherwise the entry is left identical |
| `Alarms.AlarmEntry.ShouldNotify` | src/alarms/Daemon.cpp:277-294 | the notification decision, on the entry as it was before the report |
| `Alarms.AlarmEntry.AppendStatusChange` | src/alarms/Daemon.cpp:301-306 | a change is appended, and what exceeds the limit is discarded |
| `Alarms.AlarmEntry.ShrinkStatusChanges` | src/alarms/Daemon.cpp:311-326 | the oldest entries beyond the limit are erased and their times returned, oldest first |
| `Filters.PurgeFilter` | src/alarms/Filters.cpp:31-88 | the filter object matches exactly the alarms the input asks for; an empty choice is an error |
| `Filters.CompressFilter` | src/alarms/Filters.cpp:90-115 | the filter object matches exactly the keys the input asks for |
| `Filters.AlarmFilter.Append` | src/alarms/Filters.cpp:26-29 | every predicate appended narrows the matches by itself |
| `Filters.SeverityTrichotomy` | src/alarms/Filters.cpp:49-57 | below, is and above a level are disjoint and cover every severity |
| `Control.ReadChanges` | src/alarms/Daemon.cpp:115-165 | the loop over the changes applies those before the first shelving change, notices shelving anywhere, and asks for a trim exactly if an applied change lowers the limit |
| `Control.SettingsFromValues` | src/alarms/Daemon.cpp:124-163 | mode, threshold and limit after a batch are the values in the last change before the first shelving change that mentions them, or the old ones |
| `Control.LastChangeWins` | src/alarms/Daemon.cpp:118-165 | each leaf of the configuration has the value of the last change of the batch that mentions it |
| `Control.ShelvingFirstSetsNothing` | src/alarms/Daemon.cpp:118-123 | a batch that starts with a shelving change sets no setting |
| `Control.NoTrimNeeded` | src/alarms/Daemon.cpp:161-163 | unless an applied change lowers the limit, every history that fitted the old limit fits the new one |
| `Control.TracksWhenShelvingLast` | src/alarms/Daemon.cpp:118-123 | with shelving changes last, the settings equal a fresh reading of the configuration |
| `Control.TracksExactlyWhenShelvingLast` | src/alarms/Daemon.cpp:118-123 | for a batch that is a difference, they do so if and only if no setting follows a shelving change |
| `Control.SkippedModeChange` | src/alarms/Daemon.cpp:118-147 | a hypothetical batch between valid configurations, with a mode change after a shelving change, that would leave the daemon in severity mode without a threshold |
| `Inventories.ParsedGivesVerdict` | src/alarms/Daemon.cpp:209-225 | validation against a fresh parse gives the verdict of the stored entries: type listed, resource listed or unrestricted, severity listed, unrestricted or a clear |
| `Inventories.VerdictExactly` | src/alarms/Daemon.cpp:209-225 | with one entry per type, a report passes exactly if an entry for its type lists its resource or none, and its severity or none, or it is a clear |
| `Inventories.Parse` | src/alarms/Daemon.cpp:648-675 | the parsing loops collect, per type, the data of its first entry |
| `Inventories.ParsedExtends` | src/alarms/Daemon.cpp:664-671 | a further entry of a type already there leaves the cache as it is |
| `ShelfMatch.FirstMatchIsFound` | src/alarms/ShelfMatch.cpp:66-72 | the shelf found matches and no earlier one does; none is found exactly if none matches |
| `ShelfMatch.ShelfCriteriaMet` | src/alarms/ShelfMatch.cpp:18-57 | an alarm is only put on a shelf that lists its resource, if it lists any, and a type with its qualifier that its identity is derived from, if it lists any |
| `ShelfMatch.MetCriteriaShelve` | src/alarms/ShelfMatch.cpp:42-72 | a shelf whose criteria a key meets takes its alarm, unless an earlier shelf does |
| `ShelfMatch.NonMatchingShelvesAreIrrelevant` | src/alarms/ShelfMatch.cpp:66-72 | shelves that do not match a key do not affect where its alarm goes |
| `Key.EscapeListKey` | src/alarms/Key.cpp:13-25 | quoting fails exactly on mixed quotes, and otherwise uses a quote the text does not contain |
| `Key.PrintsExactlyWhenPrintable` | src/alarms/Key.cpp:45-48 | a key prints if and only if its resource does not mix quotes |
| `Key.PrintedType` | src/alarms/Key.cpp:30-33 | the printed type, letter by letter |
| `Key.PrintedForm` | src/alarms/Key.cpp:13-48 | the printed key, letter by letter, with its choice of quotes |
| `Key.KeyPrintingInjective` | src/alarms/Key.cpp:30-48 | distinct keys print differently, whatever their qualifiers contain |
| `Key.ParseInvertsPrinting` | src/alarms/Key.cpp:30-48 | a left-to-right reader gets the key back if and only if its qualifier has no single quote |
| `Trees.UnlinkOldest` | src/alarms/Daemon.cpp:366-368 | unlinking the oldest time of a newest-first list drops its last entry |
| `Trees.AddressForm` | src/alarms/Daemon.cpp:434-435 | which list the path of a node leads to |
| `Trees.AddressInjective` | src/alarms/Daemon.cpp:434-436 | the path of a node determines its list and its key |
| `Trees.PathLookupExact` | src/alarms/Daemon.cpp:510-510 | looking a path up finds a node if and only if the list holds the key |
| `Trees.PathPutExact` | src/alarms/Daemon.cpp:435-436 | writing through a path writes the entry of that list and key and no other |
| `Trees.PathUnlinkExact` | src/alarms/Daemon.cpp:510-510 | unlinking through a path removes the entry of that list and key and no other |

## Left out

- Sysrepo sessions, subscriptions, datastore switching and the check on who calls the RPC: a push copies the edited tree
  to the published one, and the configuration arrives as a batch of changes with the new shelving rules.
- The wording of error messages: outcomes are codes.
- libyang: its trees, XPath evaluation and schema validation. A node is a record with its leaves and its status-change
  list; a list entry that is created without leaves has default values in the record until they are written.
- Identity closure: the names derived from a configured identity are part of the rules, as an arbitrary set.
- Regular expressions for resources and qualifiers, `shelves-active`, alarm profiles and operator states: the code does
  not implement them.
- Time zones, time formatting and jumps of the clock: times are integers and formatting is taken to be injective.
- Hashing and the layout of hash tables: the loops take the keys in arbitrary order.
- Threads: handlers are atomic steps; only an inventory write and its callback are separate ones.
- The unsigned 32-bit counters: counts are natural numbers, so 2^32 alarms are not covered. Severities and limits keep
  their ranges.
- Entries of `m_alarms` are values, loaded into an `AlarmEntry` object, updated and stored back: references into the map
  are not modelled.
- Logging, time measurement, signal handling and `main`.
