# Stillwater: protocols, rollbacks and walks, verified

Stillwater keeps an artist library and its media servers in agreement. Most of it is HTTP plumbing; this project
models the parts that are real algorithms, in Dafny, and proves what they promise. External effects (peer calls,
database statements, file renames, provider lookups) become methods whose failure is decided by an argument, so the
theorems below hold for every pattern of these failures unless they say otherwise. Code that updates state in place is
a class or a method with loops, proved equal to a function; the theorems are lemmas about those functions or about
whole runs of a state machine.

| file | what it models |
|---|---|
| `ManagedToggle.dfy` | the "let Stillwater manage this server" toggle: peer options, snapshot column, managed flag, partial peer effects |
| `ToggleRuns.dfy` | whole runs of the toggle step by step: crashes, edits, and the conflict detector's unlocked re-disable |
| `ConnectionLock.dfy` | the locked read-modify-write handlers of one connection row, alone and interleaved |
| `FanartNames.dfy`, `FanartDiscovery.dfy` | fanart file names, and which files of a directory are listed as fanart |
| `FanartReorder.dfy`, `FanartReorderLaws.dfy` | the two-phase fanart rename and its rollbacks |
| `KeyWalk.dfy`, `SubTemplate.dfy`, `Markers.dfy` | the settings-reference generator: cyclic helper walks, skip ranges, splicing between markers |
| `BlastRestore.dfy`, `BlastRestoreLaws.dfy` | plan-then-commit recovery of damaged metadata fields |
| `BulkSlot.dfy`, `BulkRun.dfy` | the slot shared by bulk actions and fanart repairs, and the counted, cancellable worker |
| `RivalScan.dfy` | the budgeted, memoised search for a rival candidate |
| `TupleParser.dfy` | the SQL tuple reader of the platform-profile generator |
| `ExportPager.dfy` | the capped pager of the blast-radius export |
| `Strings.dfy`, `Tags.dfy`, `Sequences.dfy`, `Wrappers.dfy` | string, tag-list and sequence helpers, `Option` and `Result` |

## Where the code does not meet a promise

Each of these is a lemma with a concrete input, next to the exact condition under which the promise holds.

- **A stale snapshot is not cosmetic.** The comment at `internal/api/handlers_conflict.go:442-443` calls a failed
  final clear cosmetic. The snapshot left behind is reused by the next enable, so an edit made in between is undone by
  the next disable (`StaleSnapshotLosesAnEdit`; the exact conditions are `EditUnderSnapshotSurvivesDisable` and
  `EditUnderSnapshotSurvivesCycle`).
- **The conflict detector can lose the original.** It lists the connections once (`internal/conflict/detector.go:214`)
  and later, without the connection's lock, turns the savers off on any row it read as managed
  (`internal/conflict/detector.go:422-426`). If the connection is handed back in between, the savers go off with no
  snapshot held, and the next enable captures that as the user's configuration (`DetectorLosesTheOriginal`). Such a step
  keeps the protocol's invariant exactly when a snapshot is held that no request is about to clear, or nothing is
  changed (`PushKeepsInvExactly`; after a hand-back: `StalePushLosesExactly`). With a current flag it is harmless
  (`CurrentFlagIsHarmless`) and does what the settings promise (`PushUndoesDrift`).
- **A reorder can replace a file it never saw.** Discovery lists one file per slot number
  (`internal/image/fanart.go:113-140`), so `backdrop.png` is hidden beside `backdrop.jpg` and a swap can rename over it
  (`HiddenFileIsReplaced`; exactly when: `BystandersSurviveUnlessClash`). It takes two images that share a slot
  (`ClashSharesSlot`); a directory without such a pair is safe (`UnsharedSlotsAreSafe`).
- **A stale temporary file that cannot be removed** ends a reorder without rollback; the directory is intact only if
  it was the first one (`StaleTempLeavesStagedFiles`). A failed revert can let the second rollback loop overwrite a
  finalized file (`ContentLostExactlyWhenOverwritten`).
- **A helper called only by itself** loses its keys in the sub-template walk (`SelfCallLosesItsKeys`; exactly when keys
  are lost: `LosesNothingExactly`; acyclic files lose none: `AcyclicLosesNothing`).
- **A cached rival is not always consulted.** The comment at `internal/api/album_gate.go:264-275` says so, but line 281
  ends the scan at the first uncached rival past the budget (`WarmStopCanMiss`; what is lost, exactly:
  `StopMissesExactly`). No request presents such a cache today: each identification starts with an empty one
  (`internal/api/handlers_identify.go:553`) and the tier that fills it returns
  (`internal/api/handlers_identify.go:575-581`), and from an empty cache nothing is lost (`ColdStopAgreesWithFullScan`).
- **A restore can be reported twice.** `internal/api/handlers_blast_radius_restore.go:343-347` says that nothing is
  written twice. When the read behind the no-op check fails, `internal/artist/service.go:1550-1567` writes without
  comparing and reports a change (`RestoredTwice`; exactly when: `RestoredTwiceExactly`). What is written is the normal
  form of what the field already holds, so no value changes in normal form (`SecondRunLeavesDatabase`).
- **Genres, styles and moods are not restored to their recorded text.** Values of these fields are compared and stored
  as trimmed, comma-separated tags (`internal/artist/service.go:1503-1508`, `internal/artist/sqlite_artist.go:53-63`),
  while history records the tags as they stood, and an NFO file may hold "Rock,Pop" as one tag
  (`internal/nfo/parser.go:208-218`). Blanked, it comes back as "Rock, Pop"; replaced by "Rock, Pop", its restore is
  reported unchanged and the row stays listed as damage (`CommaTagIsNotRestored`; when the text comes back, exactly:
  `PlannedItemLands`).
- **A restore on a deleted artist is reported too.** An UPDATE that meets no row succeeds
  (`internal/artist/sqlite_artist.go:341-348`), so an artist deleted between the re-check and the write has its item
  reported restored (`RestoredOnADeletedArtist`).
- **A write between the restore's re-check and its write is overwritten** (`LateWriteIsOverwritten`; exactly when, for
  any databases: `OverwritesAnotherValueExactly`), as the file's own comment concedes.

## Model

| member | source | states |
|---|---|---|
| ManagedToggle.Toggle.HandleSetStillwaterManaged | internal/api/handlers_conflict.go:279-358 | one request passes through exactly the states of its trace, whichever steps fail; unless it starts managed without a snapshot, it answers success if and only if flag and column are as asked afterwards |
| ManagedToggle.Toggle.ApplyStillwaterManaged | internal/api/handlers_conflict.go:382-404 | enabling: capture only when no snapshot is held, persist before disabling, roll back on failure; it succeeds if and only if none of its steps failed, and leaves a held snapshot and the flag on |
| ManagedToggle.Toggle.RollbackStillwaterManaged | internal/api/handlers_conflict.go:421-432 | restores the peer, and clears the column only if this call captured the snapshot and the restore succeeded |
| ManagedToggle.Toggle.ClearStillwaterManaged | internal/api/handlers_conflict.go:444-458 | disabling: flag first, then peer, then column; it succeeds if and only if none of its steps failed, and leaves neither flag nor snapshot |
| ManagedToggle.Toggle.DisableFileWriteBack | internal/connection/mediabrowser/library_options.go:501-523 | the loop attempts every listed library and fails if any POST reported an error; success means every library's savers are off and nothing else changed; when the libraries cannot be listed, nothing changes |
| ManagedToggle.Toggle.RestoreLibraryOptions | internal/connection/mediabrowser/library_options.go:539-603 | the loop replays the snapshot on each of its libraries the peer still lists and skips the others; success means every library known to both has its recorded savers back |
| ManagedToggle.RestoreFromCaptureIsSafe | internal/api/handlers_conflict.go:486-497 | replaying a capture of the original, however partially, stays safe, and a successful replay gives the original back |
| ManagedToggle.RequestStaysSafe | internal/api/handlers_conflict.go:310-458 | between any two steps of any request: no snapshot means the peer is the original, a held snapshot is the original's, managed means held and all savers off |
| ToggleRuns.MovesAreTheTrace | internal/api/handlers_conflict.go:310-458 | left alone, the step-by-step request passes through exactly the states of its trace |
| ToggleRuns.PushKeepsInvExactly | internal/conflict/detector.go:411-426 | a detector step, wherever it falls among a request's steps, keeps the invariant if and only if a snapshot is held that no request is about to clear, or every library it reaches is already off |
| ToggleRuns.CurrentFlagIsHarmless | internal/conflict/detector.go:411-426 | on a connection managed at that moment the detector changes nothing |
| ToggleRuns.PushUndoesDrift | internal/conflict/detector.go:411-420 | savers switched on behind a managed connection's back are all off again after a complete detector step |
| ToggleRuns.RunStaysSafe | internal/api/handlers_conflict.go:310-458 | at every point of any run of enables, disables, crashes, edits and detector steps between any two steps (edits while no snapshot is held, detector steps harmless) the state is safe, and one clean enable or disable from there reaches its target |
| ToggleRuns.StalePushLosesExactly | internal/conflict/detector.go:411-426 | a detector step after a hand-back: the next clean cycle gives the original back if and only if the step changed nothing |
| ToggleRuns.DetectorLosesTheOriginal | internal/conflict/detector.go:214-262 | enable, list, clean disable, detector step: any configuration with a saver on is lost |
| ManagedToggle.NoOpExactlyAtTarget | internal/api/handlers_conflict.go:287-321 | the early return fires if and only if the requested state, peer included, already holds |
| ManagedToggle.CleanRequestReachesTarget | internal/api/handlers_conflict.go:310-355 | from every safe state one failure-free request reaches its target |
| ManagedToggle.FailedEnableLeavesNoTrace | internal/api/handlers_conflict.go:382-432 | an enable that captures its own snapshot leaves exactly the state it started from if and only if the capture failed, or a later step failed and the rollback's restore and clear both succeeded |
| ManagedToggle.FailedEnableGivesPeerBack | internal/api/handlers_conflict.go:406-432 | an enable that fails and whose rollback restores gives the original peer back, unmanaged, and a snapshot from an earlier enable survives it |
| ManagedToggle.EditUnderSnapshotSurvivesDisable | internal/api/handlers_conflict.go:444-458 | an edit made under a held snapshot survives a clean disable if and only if it left every snapshotted library's savers at the snapshot's values |
| ManagedToggle.EditUnderSnapshotSurvivesCycle | internal/api/handlers_conflict.go:382-458 | it survives a clean enable and disable if and only if, in addition, libraries unknown to the snapshot had their savers off |
| ManagedToggle.StaleSnapshotLosesAnEdit | internal/api/handlers_conflict.go:442-458 | a failed final clear followed by an edit, an enable and a disable restores the configuration from before the edit |
| ConnectionLock.Connection.HandleUpdateConnection | internal/api/handlers_connection.go:458-549 | the row is the one the accepted, validated body gives, its URL cleaned, followed by inference on the row re-read; the lock is free on every path and never taken twice |
| ConnectionLock.Connection.EditInMemory | internal/api/handlers_connection.go:466-530 | the partial body applied to the fetched row; an unknown type, or a toggle the (possibly new) type does not have, rejects it |
| ConnectionLock.Connection.HandleUpdateConnectionFeatures | internal/api/handlers_connection.go:894-961 | only the toggles given change; refused if and only if a type without toggles is given one; the lock is free on every path |
| ConnectionLock.FeaturesAcceptedExactly | internal/api/handlers_connection.go:927-943 | a toggle edit is accepted if and only if the connection is an Emby or a Jellyfin, or the request carries no toggle |
| ConnectionLock.UpdateAcceptedExactly | internal/api/handlers_connection.go:466-520 | an update is accepted if and only if the row it makes has a name, one of the three types, a URL that can be cleaned and a key, and every toggle it carries is one the new type has |
| ConnectionLock.UpdateMakes | internal/api/handlers_connection.go:466-531 | an accepted update replaces each field it carries and keeps the others, but a changed type drops everything that belonged to the old one |
| ConnectionLock.MappingsAcceptedExactly | internal/connection/model.go:517-541 | a mapping list is stored if and only if the row it lands in is valid; an inferred one also only over an empty list |
| ConnectionLock.Connection.HandleSetPathMappings | internal/api/handlers_connection.go:987-1032 | an acceptable list replaces the mappings, anything else leaves the row alone |
| ConnectionLock.Connection.HandleInferPathMappings | internal/api/handlers_connection.go:1122-1184 | writes if and only if the list re-read under the lock is empty and something was inferred |
| ConnectionLock.Connection.ApplyInferredPathMappingsIfEmpty | internal/api/pathinfer.go:425-511 | inference after an update, decided on the re-read row |
| ConnectionLock.SanitizePathMappings | internal/api/handlers_connection.go:1086-1106 | the loop drops blank pairs, trims the rest and rejects the list exactly when a half or root pair is in it |
| ConnectionLock.SanitizedTwice | internal/api/handlers_connection.go:1077-1106 | every saved pair is trimmed and has two usable sides, and saving a saved list changes nothing |
| ConnectionLock.ListRefusedExactly | internal/api/handlers_connection.go:1086-1106 | a list is refused if and only if one of its pairs, not blank altogether, has a side that is nothing or only slashes once trimmed |
| ConnectionLock.KeptInOrder | internal/api/handlers_connection.go:1086-1106 | what is kept is the pairs that are not blank, trimmed, in their order |
| ConnectionLock.StepKeepsInv | internal/api/handlers_connection.go:30-35 | any handler's lock, read, write, unlock, and an unlocked delete, keeps "the row is the serial result of the log, and the holder's copy is current" |
| ConnectionLock.EveryInterleavingIsSerial | internal/api/handlers_connection.go:20-35 | after any interleaving the row, unless deleted, is what the handlers give one after the other in the order they took the lock |
| ConnectionLock.HandlerCompletes | internal/api/handlers_connection.go:450-465 | once the lock is free any handler can run to its end, issuing every statement it has and leaving the lock free |
| ConnectionLock.Connection.Store | internal/connection/service.go:186-240 | Service.Update: a row that does not validate is not stored; one that does is stored with its URL cleaned and without its snapshot column |
| ConnectionLock.UntouchedFieldKept | internal/connection/service.go:202-240 | a handler leaves every field it was not asked about as readers see it, the URL provided it is stored cleaned; in particular no full-row write moves the snapshot column |
| ConnectionLock.UrlKeptExactlyWhenClean | internal/connection/model.go:524-528 | a full-row write that does not name the URL leaves it if and only if cleaning leaves it |
| ConnectionLock.UrlStaysClean | internal/connection/model.go:524-528 | a URL that is stored cleaned, or that a committed request asked for, is stored cleaned afterwards |
| ConnectionLock.EditTakesEffect | internal/api/handlers_connection.go:466-531 | a handler whose write took effect shows every value it was given, the URL in its cleaned form |
| ConnectionLock.NoLostUpdate | internal/api/handlers_connection.go:450-465 | after any interleaving a committed value, the URL in its cleaned form, is still shown unless a handler that took the lock later touches the same field |
| ConnectionLock.InferenceReplacesOnlyAnEmptyList | internal/api/handlers_connection.go:1146-1178 | when inference writes, the list it replaces is empty at that moment, and nothing else changes but a URL that was not stored cleaned |
| ConnectionLock.ToggleKeepsItsMeaning | internal/api/handlers_conflict.go:262-285 | a complete toggle among other handlers moves flag and snapshot as it does alone, and no other handler moves either |
| ConnectionLock.OnlyTogglesMoveTheToggle | internal/connection/service.go:202-209 | whatever the other handlers write in between, flag and snapshot are where the toggle requests alone would have brought them |
| ConnectionLock.ToggleSafeAmongOthers | internal/api/handlers_conflict.go:262-285 | after any interleaving of any handlers, toggles complete, cut short or under way, row and peer are safe in the toggle's sense, the peers met by the toggles following from one another |
| ConnectionLock.SerialHidesNothing | internal/connection/model.go:285-307 | no sequence of handlers, type changes included, stores a toggle that nothing can read back |
| FanartReorder.IsValidPermutation | internal/api/handlers_backdrop.go:818-832 | true exactly for non-empty bijections on [0, n) |
| FanartReorder.InjectionIsOnto | internal/api/handlers_backdrop.go:818-832 | pigeonhole: distinct in-range indices hit every index |
| FanartReorder.Directory.FanartReorder | internal/api/handlers_backdrop.go:586-747 | the handler rejects bad orders without touching a file and otherwise does what the two phases with their rollbacks do, for every pattern of failing removals and renames |
| FanartReorder.Directory.Stage | internal/api/handlers_backdrop.go:645-689 | phase 1 stops at the first slot that cannot be cleared or staged, rolling back in the second case only |
| FanartReorder.Directory.Finalize | internal/api/handlers_backdrop.go:691-747 | phase 2 stops at the first failing rename and runs both rollback loops to their end |
| FanartNames.TempNamesDistinct | internal/api/handlers_backdrop.go:651-653 | staging names of different slots differ, whatever image extensions they carry |
| FanartNames.FinalNamesDistinct | internal/image/fanart.go:26-37 | final names of different slots differ for every primary name and both numberings |
| FanartDiscovery.FanartMatches | internal/image/fanart.go:75-140 | collecting, sorting and dropping repeated slots lists, in slot order, exactly the most preferred file of every slot |
| FanartDiscovery.DiscoverFanart | internal/image/fanart.go:55-66 | the paths of that listing: per slot one file, the primary's extension first and then the earlier name, in increasing slots, and every file that stands for a slot has its slot listed |
| FanartDiscovery.SlotExactly | internal/image/fanart.go:97-110 | a name has slot n if and only if it has an image extension and its stem is the primary's, letter case aside, followed by nothing (n is 0) or by a number with value n |
| FanartDiscovery.DiscoveryMeans | internal/image/fanart.go:75-140 | the same listing read off the file names, with the slot number of each path |
| FanartDiscovery.DiscoveryIsUnique | internal/image/fanart.go:113-128 | a directory has one discovery, whatever order its entries are read in |
| FanartDiscovery.HiddenExactly | internal/image/fanart.go:113-140 | a matching file is left out if and only if another file of its slot is preferred to it |
| FanartDiscovery.FinalNameSlot | internal/image/fanart.go:97-110 | discovery reads a final name back as the slot it was made for |
| FanartNames.TempIsNoImage | internal/api/handlers_backdrop.go:651-653 | a staging name is never the name of an image |
| FanartReorderLaws.DiscoveryIsDiscovered | internal/image/fanart.go:75-140 | what discovery returns are distinct images |
| FanartReorderLaws.PlanIsSeparate | internal/api/handlers_backdrop.go:645-707 | for every accepted request sources, staging names and final names are pairwise distinct and staging names meet neither of the others |
| FanartReorderLaws.OutcomeExactly | internal/api/handlers_backdrop.go:645-747 | a reorder succeeds if and only if every source exists and no slot fails to be cleared, staged or finalized; phase 1 stops at the first slot that cannot be staged, phase 2 at the least one that cannot be finalized |
| FanartReorderLaws.SuccessRealisesPermutation | internal/api/handlers_backdrop.go:586-717 | after success slot i holds the content of paths[order[i]] and its temporary file is gone |
| FanartReorderLaws.SuccessKeepsEveryFile | internal/api/handlers_backdrop.go:645-717 | after success every discovered file's content is in exactly the slot the permutation sends it to |
| FanartReorderLaws.BystandersSurviveUnlessClash | internal/image/fanart.go:113-140 | after success every undiscovered file is unchanged if and only if no final name replaces one with different content |
| FanartReorderLaws.ClashSharesSlot | internal/image/fanart.go:130-140 | a final name can meet an undiscovered file only in a slot that two files of the directory share |
| FanartReorderLaws.UnsharedSlotsAreSafe | internal/api/handlers_backdrop.go:645-747 | when no two images share a slot, success touches nothing but the discovered files and a complete phase 2 rollback restores the start minus stale temporary files |
| FanartReorderLaws.HiddenFileIsReplaced | internal/image/fanart.go:113-140 | for every base name: beside base.jpg and base2.png discovery hides base.png, and swapping the two it lists destroys it |
| FanartReorderLaws.StageFailureAt | internal/api/handlers_backdrop.go:665-687 | phase 1 failing: each staged file is back, or still under its temporary name if its own rollback failed |
| FanartReorderLaws.StageFailureRestores | internal/api/handlers_backdrop.go:665-687 | a complete phase 1 rollback gives the starting directory minus the stale temporary files cleared so far |
| FanartReorderLaws.StaleTempLeavesStagedFiles | internal/api/handlers_backdrop.go:655-663 | a stuck stale file leaves the staged files under temporary names; the directory is intact if and only if removing the first one failed |
| FanartReorderLaws.FinalizeFailureAt | internal/api/handlers_backdrop.go:716-745 | phase 2 failing: where each discovered file and its temporary name stand after both rollback loops |
| FanartReorderLaws.FinalizeFailureComplete | internal/api/handlers_backdrop.go:716-745 | the rollback is reported complete exactly when no revert and no restore failed |
| FanartReorderLaws.FinalizeFailureRestoresUnlessClash | internal/api/handlers_backdrop.go:716-745 | a complete phase 2 rollback gives the starting directory minus stale temporary files if and only if no name finalized before the least failing slot clashed with a hidden file |
| FanartReorderLaws.ContentLostExactlyWhenOverwritten | internal/api/handlers_backdrop.go:720-740 | after a phase 2 failure a discovered file's content is gone if and only if its revert failed and another file was restored over it |
| FanartReorderLaws.NothingLostOnceReverted | internal/api/handlers_backdrop.go:720-740 | once the first rollback loop succeeded nothing is lost, whatever the second does |
| KeyWalk.Walker.WalkPanelRegion | cmd/gen-settings-reference/main.go:912-977 | the event loop terminates on every helper graph, computes the recursive walk and restores `visiting` on exit |
| KeyWalk.Walker.EmitHelperKeysFlat | cmd/gen-settings-reference/main.go:986-998 | the one-level expansion of a trunk helper with the shared deduplication |
| KeyWalk.CollectPanelRegionKeys | cmd/gen-settings-reference/main.go:865-878 | the two phases together; the `visiting` test of the second never skips anything |
| KeyWalk.SimplePath | cmd/gen-settings-reference/main.go:909-911 | what a path of calls reaches, a path without repetitions reaches |
| KeyWalk.WalkRecordsExactlyReachable | cmd/gen-settings-reference/main.go:889-977 | on every helper graph the walk records a key or a trunk call if and only if it stands in a body reachable through the extraction layer |
| KeyWalk.PanelRegionKeysExact | cmd/gen-settings-reference/main.go:850-878 | a key is listed if and only if it is not noise and stands in the region, in a reachable extraction body, or in a trunk helper called from any of these |
| KeyWalk.PanelRegionKeysDistinct | cmd/gen-settings-reference/main.go:850-878 | no key is listed twice |
| KeyWalk.PanelRegionKeysInOrder | cmd/gen-settings-reference/main.go:871-876 | the list is the keys of the expanded region followed by the bodies of its trunk calls in call order, each at its first encounter |
| KeyWalk.ExpandInPlace | cmd/gen-settings-reference/main.go:889-911 | expanding keeps the order of the text, puts a helper's body where it is called, keeps trunk calls, and drops calls that close a cycle or lead nowhere |
| KeyWalk.GuardIrrelevant | cmd/gen-settings-reference/main.go:937-960 | the cycle guard on a helper changes nothing for a walk that never meets that helper |
| KeyWalk.ExtractionIsTransparent | cmd/gen-settings-reference/main.go:418-427 | replacing an extraction-layer call by the helper's body leaves the list identical, order and deferred keys included |
| KeyWalk.PanelRegionKeysAreLegacyKeys | cmd/gen-settings-reference/main.go:894-907 | the two-phase walk lists exactly what the one-level generator lists on the fully expanded markup |
| SubTemplate.InSkipRange | cmd/gen-settings-reference/main.go:1003-1013 | the scan with its early exit answers membership in any of the sorted ranges |
| SubTemplate.OrderedWalker.WalkFile | cmd/gen-settings-reference/main.go:783-848 | the file walk passes over called bodies and expands calls in place |
| SubTemplate.ExtractSubTemplateKeys | cmd/gen-settings-reference/main.go:747-770 | skip ranges, order and guards together compute the walk of the kept tokens |
| SubTemplate.ExtractKeys | cmd/gen-settings-reference/main.go:1024-1040 | the flat scan lists exactly the non-noise keys of the source, each once, in the order of first encounter |
| SubTemplate.SubTemplateKeysExact | cmd/gen-settings-reference/main.go:747-848 | on every file, cyclic or not: exactly the keys kept in place or standing in a body reachable from there, each once |
| SubTemplate.KeptIsTheTextInOrder | cmd/gen-settings-reference/main.go:750-770 | what is walked in place is the text without the skipped positions, in the order of the file |
| SubTemplate.SubTemplateKeysInOrder | cmd/gen-settings-reference/main.go:772-848 | the list is the keys of the kept text with its calls expanded in place, each at its first encounter |
| SubTemplate.AcyclicLosesNothing | cmd/gen-settings-reference/main.go:747-848 | on acyclic files the walk lists a key if and only if the flat scan does |
| SubTemplate.LosesNothingExactly | cmd/gen-settings-reference/main.go:747-848 | on every file nothing is lost if and only if every non-noise key in a skipped body is reached by calls from the kept text |
| SubTemplate.SelfCallLosesItsKeys | cmd/gen-settings-reference/main.go:750-762 | a helper called only by itself is skipped where it stands and expanded nowhere |
| Markers.File.WriteOrCheck | cmd/gen-settings-reference/main.go:281-302 | check mode reports staleness exactly when the splice differs and never writes; write mode writes the splice; any failure leaves the file as it was |
| Markers.OutsideTextKept | cmd/gen-settings-reference/main.go:1816-1846 | a splice keeps everything up to the first begin marker and everything from the first end marker after it |
| Markers.TrimNewlinesExactly | cmd/gen-settings-reference/main.go:1837-1837 | the generated body loses only newlines at its end, and all of them |
| Markers.SpliceText | cmd/gen-settings-reference/main.go:1838-1845 | between the two kept texts stands the trimmed body, on lines of its own |
| Markers.SpliceFailsExactly | cmd/gen-settings-reference/main.go:1822-1835 | a splice fails if and only if the begin marker is nowhere, or no end marker stands at or after the first one |
| Markers.WriteThenCheckConverges | cmd/gen-settings-reference/main.go:281-302 | a write followed by a check of the same text reports no staleness if and only if the end marker occurs neither in the begin marker nor in the trimmed body |
| BlastRestore.Service.PerformRevert | internal/api/handlers_history.go:420-431 | refuses an unacceptable value, guards a name, updates any other field |
| BlastRestore.Service.UpdateField | internal/artist/service.go:1540-1674 | skips a value seen to be there already in normal form; otherwise stores its normal form, unrecorded when the old value could not be read, and reports a change even when no row was met |
| Tags.SplitUndoesJoin | internal/artist/sqlite_artist.go:53-63 | splitting joined tags gives the tags back |
| Tags.NormalTwice | internal/artist/service.go:1503-1508 | normalizing a normalized value changes nothing |
| BlastRestore.TagRulesAreSound | internal/artist/service.go:1496-1508 | the normal form of tags, which leaves other fields alone, meets what the restore's theorems assume of it |
| BlastRestore.Service.UpdateNameGuarded | internal/artist/name_collision.go:309-408 | skips an equal name, refuses one if and only if another artist holds its identity and it is not the artist's own, otherwise writes and records it |
| BlastRestore.Service.CommitBlastRestore | internal/api/handlers_blast_radius_restore.go:648-722 | the loop commits each planned item in turn, a failure refusing that item only |
| BlastRestore.Service.PlanBlastRestore | internal/api/handlers_blast_radius_restore.go:486-577 | every id gets an item in request order, planned or refused by the first check that fails |
| BlastRestoreLaws.PlannedExactly | internal/api/handlers_blast_radius_restore.go:497-577 | a row is planned if and only if it is found, its field tracked, its old value acceptable, it is the latest damage of its field and not overtaken, the reads succeed, and, for a name, nobody else holds the identity unless it is the artist's own |
| BlastRestoreLaws.RefusalNamesTheCheck | internal/api/handlers_blast_radius_restore.go:497-577 | each reason is given if and only if its check is the first to fail |
| BlastRestoreLaws.PlannedItemShows | internal/api/handlers_blast_radius_restore.go:543-577 | a planned item shows the live value and the one to be restored |
| BlastRestore.DedupeChangeIds | internal/api/handlers_blast_radius_restore.go:388-399 | the loop keeps the first occurrence of every non-blank id |
| BlastRestore.DedupeKeepsEachIdOnce | internal/api/handlers_blast_radius_restore.go:384-399 | each requested non-blank id is kept, once |
| BlastRestore.SummarizeBlastRestore | internal/api/handlers_blast_radius_restore.go:803-819 | the counters are the numbers of items per status, and eligible plus refused is everything |
| BlastRestoreLaws.TopIsUnique | internal/artist/sqlite_history.go:433-446 | however timestamps tie, one row per (artist, field) ranks first |
| BlastRestoreLaws.PlanIsGood | internal/api/handlers_blast_radius_restore.go:414-432 | planned items have pairwise distinct (artist, field) and agree with the row and the live value they were planned on |
| BlastRestoreLaws.PlannedMeetsItsValue | internal/api/handlers_blast_radius_restore.go:648-722 | at its turn a planned item meets exactly the row and value it was planned on: earlier writes of the batch cannot disturb it |
| BlastRestoreLaws.PlannedItemLands | internal/api/handlers_blast_radius_restore.go:648-722 | in a quiescent database a planned non-name item ends unchanged if the live value was seen to be the old one in normal form, else restored; the field holds it in normal form, and shows the recorded text if and only if the skipped text was that one or is stored as recorded |
| BlastRestoreLaws.PlannedNameLands | internal/artist/name_collision.go:309-408 | with no failing step a planned name ends unchanged if it was there already, refused if and only if, at its turn, another artist holds the identity and it is not the artist's own, and otherwise restored and shown |
| BlastRestoreLaws.OneCommitRecords | internal/artist/name_collision.go:309-408 | a commit records a row if and only if it restored the item and recording worked: a revert from the value before to the one after |
| BlastRestoreLaws.OtherFieldsUntouched | internal/api/handlers_blast_radius_restore.go:648-722 | the batch changes no field but those of the items it reports restored |
| BlastRestoreLaws.CommitAddsNoDuplicate | internal/artist/name_collision.go:309-408 | whatever fails, no two artists share a name identity after the batch that did not share it before |
| BlastRestoreLaws.RestoredAgainExactly | internal/artist/service.go:1540-1596 | an item whose field already holds its value in normal form is reported restored if and only if it is planned, a plain field, its re-checks pass, the read behind the no-op check fails and the write lands |
| BlastRestoreLaws.TopAgainExactly | internal/artist/sqlite_history.go:433-446 | after the run that restored it a row still ranks first if and only if no revert row was recorded for it, or one that does not outrank it |
| BlastRestoreLaws.RestoredTwiceExactly | internal/api/handlers_blast_radius_restore.go:343-347 | re-running the request, when exactly an item the first run restored is reported restored once more, in terms of its row and of the faults of both runs; never a name, never when every read succeeds, and never when its stored form is neither recorded text |
| BlastRestoreLaws.RestoredTwice | internal/artist/service.go:1550-1567 | a pair of runs that both report the item restored |
| BlastRestoreLaws.SecondRunLeavesDatabase | internal/api/handlers_blast_radius_restore.go:343-347 | without name rows, re-running after a clean run changes no value in normal form and records nothing; a write is issued if and only if the item is planned and written unseen, and the database is the very same if and only if every such field already showed its stored form |
| BlastRestoreLaws.OverwritesAnotherValueExactly | internal/api/handlers_blast_radius_restore.go:664-692 | for any three databases seen by re-fetch, re-check and write: a value other than the recorded new one is replaced if and only if the commit lands, unskipped, while the field shows neither it nor the stored form of the old one |
| BlastRestoreLaws.WriteReplacesOnlyRecordedValue | internal/api/handlers_blast_radius_restore.go:664-692 | a commit changes only its row's field, only to the stored form of the recorded old value, and, unless the field is written between re-check and write, only from the recorded new value or, unseen, from the recorded old one |
| BlastRestoreLaws.LateWriteIsOverwritten | internal/api/handlers_blast_radius_restore.go:664-692 | a write landing in that window is overwritten |
| BlastRestoreLaws.RestoredOnADeletedArtist | internal/artist/sqlite_artist.go:329-349 | an artist deleted in that window: nothing is written and the item is reported restored |
| BlastRestoreLaws.SameNormalFormCannotBeUndone | internal/artist/service.go:1562-1565 | a value replaced by another text of the same normal form: the item is unchanged, nothing is written, the row stays listed |
| BlastRestoreLaws.CommaTagIsNotRestored | internal/artist/sqlite_artist.go:53-63 | for any two tags run together by a comma: blanked, they come back as two; replaced by the two, they do not come back |
| BulkSlot.InvPreserved | internal/api/handlers_bulk_actions.go:372-414 | every step of every request keeps the six parts of the slot invariant |
| BulkSlot.MutualExclusion | internal/api/handlers_backdrop_repair.go:108-129 | in every interleaving never two running bulk actions, two repairs, or one of each |
| BulkSlot.SlotHandover | internal/api/handlers_bulk_actions.go:378-409 | a claim never displaces a running record, a failed start clears its own record, and nothing else moves the slot |
| BulkSlot.NeverLeaked | internal/api/handlers_bulk_actions.go:399-412 | a busy slot or flag always has a request that will free it |
| BulkSlot.NobodyIsStuck | internal/api/handlers_bulk_actions.go:372-412 | in every reachable state every request under way can step, or waits for the slot mutex, whose holder can |
| BulkSlot.LetInExactly | internal/api/handlers_backdrop_repair.go:108-125 | a start or a repair that nothing interrupts is let in if and only if the slot's record does not say running and no repair is flagged, and turned away otherwise |
| BulkSlot.OwnerFrees | internal/api/handlers_bulk_actions.go:399-412 | a finished worker, a failed start and a finished repair free what they kept busy |
| BulkSlot.CancelReachesOnlyWhatItRead | internal/api/handlers_bulk_actions.go:446-465 | a run is cancelled only by a request that had read that very run from the slot |
| BulkSlot.WorkersCanBeCancelled | internal/api/handlers_bulk_actions.go:446-465 | the run of a worker at work is the one in the slot, says running and has its cancel function |
| BulkSlot.CancelReachesARunningRun | internal/api/handlers_bulk_actions.go:446-465 | a cancel that nothing interrupts cancels the run in the slot if and only if it is running and has a cancel function |
| BulkRun.Progress.Run | internal/api/handlers_bulk_actions.go:526-681 | the worker's counters, review queue, interruption flag and final status for every pattern of outcomes and context endings |
| BulkRun.TallyConsistent | internal/api/handlers_bulk_actions.go:526-663 | after every iteration processed is succeeded plus skipped plus failed, and the finer counters are parts of the coarser |
| BulkRun.SucceededCounts | internal/api/handlers_bulk_actions.go:580-640 | the succeeded counter is the number of artists whose counted outcome is a success |
| BulkRun.FailedCounts | internal/api/handlers_bulk_actions.go:538-640 | the failed counter is the number of artists whose counted outcome is a failure |
| BulkRun.EveryCounterCounts | internal/api/handlers_bulk_actions.go:526-663 | skipped, auto-linked, queued and unmatched each count the artists of their own outcomes, processed counts them all |
| BulkRun.ReviewQueueExactly | internal/api/handlers_bulk_actions.go:575-586 | the review queue holds, in request order, exactly the artists found that came back ambiguous with a candidate |
| BulkRun.StopsAtTheFirstEnd | internal/api/handlers_bulk_actions.go:530-540 | the loop stops at the first artist before which the context had ended, and nowhere else |
| BulkRun.CompletedExactlyWhenNothingCutShort | internal/api/handlers_bulk_actions.go:126-139 | completed if and only if every artist was processed and no dispatched artist's failure was observed under an ended context |
| BulkRun.CutShortMeans | internal/api/handlers_bulk_actions.go:131-139 | canceled or timed out means the context ended and did cut the run short, told apart by what ended it |
| RivalScan.ReleaseGroupCache.Titles | internal/api/album_gate.go:104-128 | at most one provider call, none for an id already asked for, failed lookups included |
| RivalScan.ReleaseGroupCache.RivalClearsOverlapFloor | internal/api/album_gate.go:232-307 | the loop computes the budgeted scan and calls the provider at most twice |
| RivalScan.ReleaseGroupCache.Tier3AlbumGateDeclines | internal/api/album_gate.go:149-195 | the gate's decision, with at most three provider calls and none unless local albums were found |
| RivalScan.MbidExactly | internal/artist/service.go:1816-1837 | an id can be a rival's if and only if it is five groups of 8, 4, 4, 4 and 12 hexadecimal digits joined by hyphens |
| RivalScan.RivalExactly | internal/api/album_gate.go:240-250 | a result is a rival if and only if its id is valid, blanks around it aside, and differs from the best candidate's by more than letter case |
| RivalScan.ScanMeansFirstRivals | internal/api/album_gate.go:208-231 | from a cache where no held rival contests, the scan says whether one of the first two distinct rivals contests |
| RivalScan.PermitMeans | internal/artist/albumgate.go:216-283 | from an empty cache, local albums found: linked unattended if and only if the catalogue is known, not empty and clears 70 percent, no red flag, and neither of the first two rivals contests; declined outright if and only if there is no catalogue, an empty one, or agreement under 30 percent |
| RivalScan.ScanWithoutFetcher | internal/api/album_gate.go:285-297 | with no provider any rival at all contests |
| RivalScan.ColdStopAgreesWithFullScan | internal/api/album_gate.go:279-283 | from a cache holding at most the best candidate, stopping over budget answers as skipping and scanning on would |
| RivalScan.StopMissesExactly | internal/api/album_gate.go:264-283 | on any cache the stop misses a contest if and only if, before anything contests, there is one distinct uncached rival more than the budget pays for, and a cached contesting rival stands after it |
| RivalScan.WarmStopCanMiss | internal/api/album_gate.go:264-283 | a warm cache for which it does |
| RivalScan.WarmingOnlyAddsContests | internal/api/album_gate.go:264-275 | warming the cache with true answers can only turn "uncontested" into "contested" |
| TupleParser.ExtractQuotedStrings | cmd/gen-platform-profiles/main.go:256-285 | the byte loop reads every literal with doubled quotes undone |
| TupleParser.SplitOutsideQuotes | cmd/gen-platform-profiles/main.go:290-325 | the byte loop splits on commas outside literals and rejects an unterminated literal |
| TupleParser.ParseTupleLine | cmd/gen-platform-profiles/main.go:207-251 | the row or the first of the four errors |
| TupleParser.PrintedFieldsReadBack | cmd/gen-platform-profiles/main.go:256-325 | any printed row of any length: its literals and its tokens are read back field by field |
| TupleParser.PrintThenParse | cmd/gen-platform-profiles/main.go:207-251 | for all strings, reading a printed seven-field row recovers id, name, flag and the JSON text, in exactly seven tokens |
| TupleParser.PrintedRowExactly | cmd/gen-platform-profiles/main.go:207-251 | a printed row of any shape: which error it gives, or which of its fields make up the result |
| TupleParser.UnterminatedExactly | cmd/gen-platform-profiles/main.go:290-325 | a text is unterminated if and only if its quotes, with one still open counted in, are odd in number |
| TupleParser.LineRefused | cmd/gen-platform-profiles/main.go:207-233 | on any line, too few literals are reported first, then an odd number of quotes |
| TupleParser.JoinRestoresExactlyUncollapsed | cmd/gen-platform-profiles/main.go:290-325 | joining the tokens gives the line back if and only if no literal holds a doubled quote |
| TupleParser.NoDoubledQuoteNoCollapse | cmd/gen-platform-profiles/main.go:300-304 | a line without two adjacent quotes collapses nothing |
| ExportPager.CollectBlastRadiusExportRows | internal/api/handlers_blast_radius.go:268-288 | terminates, returns exactly the first min(n, cap) rows in order, sets truncated if and only if n exceeds cap, and asks for exactly the pages it needs |

## Left out

- HTTP decoding, HTMX responses, templates, logging, SQL text, network clients, startup wiring, key files, backups,
  dashboards and tokens: plumbing or one-branch facts.
- Writers of a connection row that take no per-connection lock: `handleCreateConnection`'s update of an existing row
  (`internal/api/handlers_connection.go:256-265`), the token refresh after a federated login
  (`internal/api/handlers.go:815-832`), the settings import (`internal/settingsio/import_sections.go:255-300`), and the
  status and platform-id writers of `internal/connection/service.go`. The first three write whole rows, managed flag
  included, from an earlier read or from a file, and the import writes the snapshot too. All are outside `NoLostUpdate`
  and `OnlyTogglesMoveTheToggle`.
- What `ValidateBaseURL` makes of a URL is an arbitrary partial function. That cleaning a cleaned URL changes nothing is
  a hypothesis (`IsStable`) of `NoLostUpdate`, for the URL field alone; parsing itself is the Go library's.
- Lidarr's snapshot format and version 2 envelopes: the toggle's snapshot holds the two levers of version 1. A peer
  library whose options carry no saver list at all is not told apart from an empty list.
- The detector's probes, banner and gate: whether it sees a saver on is left open, so a detector step may come at any
  time after it has read the flag as set. A peer call is one step; one that overlaps another is the same call reaching
  fewer libraries, before or after it. Capturing and persisting a snapshot is one step too: a detector step between the
  two has the effect of one right after them.
- The platform-settings page's own disable (`internal/api/handlers_connection.go:1261`) is the user's order: an edit.
- Regular expressions and the noise-key tables: a template is a sequence of tokens, and noise is any predicate. The
  key and call matches of one region are assumed to start at different positions.
- `sort.Slice` on the skip ranges is an insertion by start position; ranges of different helpers do not overlap.
- The JSON decoder of the last tuple field is a parameter. Bytes are characters: multi-byte text is not decoded.
- Name identity keys, trackable fields and value checks of the restore are arbitrary functions, but that a name cannot
  be blanked; normal forms are any function that is stable and keeps names (`Sound`), as the one for tags is
  (`TagRulesAreSound`). Fields are the text they show: two tag lists with the same text are not told apart.
- Committing a whole batch twice when it contains "name" rows: one restore can free an identity another row needed, so
  the per-item form (`RestoredTwiceExactly`) is what holds.
- `claimBlastRestoreSlot`: a single flag under one mutex, the easy case of the slot protocol.
- How long a bulk action may run: a deadline is just a context ending, at any point.
- `CompareAlbumSet` and the provider are arbitrary functions of the catalogue and the id; case folding is ASCII, which
  is exact on identifiers of hexadecimal digits and hyphens.
- Symbolic links, permissions and directories in the artist folder; a rename onto a missing directory is one of the
  failures.
- The hash, geometry and platform bookkeeping after a reorder.
- BulkSlot.NeverLeaked: says who will free a busy slot, not that it happens; a worker that never returns keeps it.
- ToggleRuns.RunStaysSafe: needs the user to leave the peer alone while a snapshot is held, and the detector's steps to
  be harmless; what happens otherwise is `EditUnderSnapshotSurvivesDisable`, `EditUnderSnapshotSurvivesCycle`,
  `PushKeepsInvExactly` and `StalePushLosesExactly`.
