# Filen client protocols, modelled and proved in Dafny

The Filen clients keep several small protocols whose guarantees hold over every run: the change feed
of the mobile cache, the handling of unsent edits, the reconciliation of listings, the barrier between
listings and drive events, the ownership of the on-disk cache, per-item locks, throttled progress, and
in the CLI Ctrl-C, shell words, log rotation and pruning, keyring entries, remote paths and search
pages. Each is one module here.

Concurrent and crash-prone code is a state with one `Step` per atomic action; an action that cannot
happen changes nothing, a run is any sequence of actions, and the results are invariants over all runs.
Code that runs to its end is a method, with the source's loops, proved against a specification.
File systems, databases, the queue and the server are maps and sequences; what they answer and when
they fail is a parameter. `dafny verify dfyconfig.toml` checks everything.

Modules, by source file:

| module | source | what it is about |
|---|---|---|
| `AnchorCodec`, `ChangeFeed` | `filen-mobile-native-cache/src/local.rs` | the opaque anchor and the paged change feed |
| `UnsentEdits`, `LostEdits`, `FileCache` | `filen-mobile-native-cache/src/remote.rs`, `src/io/mod.rs` | marker, name, slots and remint log of an edited file: step by step, the runs that lose an edit, and call by call |
| `ListingBarrier` | `filen-mobile-native-cache/src/auth.rs`, `src/live/mod.rs` | listings against the event applier |
| `Reconcile`, `ReconcileDir`, `ReconcileTrash` | `filen-mobile-native-cache/src/remote.rs`, `sql/*.sql` | probe, then sweep, cascades included, for a directory and for the trash |
| `AccountCache` | `filen-mobile-native-cache/src/auth.rs` | whose data the cache holds, and what its state file describes |
| `FileLocks` | `filen-mobile-native-cache/src/file_locks.rs` | the pruned map of per-item locks |
| `SearchPages` | `filen-mobile-native-cache/src/search.rs` | post-filtered paging |
| `Progress` | `filen-sdk-rs/src/progress.rs` | lock-free throttling |
| `Interrupt` | `filen-cli/src/interrupt.rs` | Ctrl-C and closed stdout |
| `ShellWords`, `ShellGrammar` | `filen-cli/src/completion.rs` | the tokenizer, its inverse, and what every line means |
| `LogRotation`, `LogPrune` | `filen-cli/src/log_files.rs` | rotation between processes, pruning |
| `Keyring`, `RemotePath` | `filen-cli/src/util.rs` | chunked entries, path navigation |

## Where the code does not do what is said of it

Each of these is a lemma with an input that shows it, beside one that says exactly when the property
holds. The code was followed throughout.

- Unsent edits (`UnsentEdits.Hazard`, with a run in `LostEdits` for each of the following): a rename
  leaves the slot's file under its old name, where neither the drain nor a download finds it, and both drop the marker;
  renamed back, a file left behind is the unmarked row's copy again; a rescue takes the first file of
  a slot for its only one; an upload removes the old slot with whatever else is in it; a download
  drops the marker of a row without a local copy without asking, as the drain does, whether a remint
  is still unresolved; a save does not rescue first, so a later rescue overwrites the newer edit with
  the older one; an upload of a row that a listing has brought to an earlier, unrecorded upload drops
  the marker of the edit saved since, and the drain, which walks to the row after it looked for a copy,
  does so in one turn and counts the file as uploaded (`FileCache.UploadLosesEdit` says exactly
  when); a remint resolved before an older one it continues orphans the
  edit; the size sweep does not look at markers; a remint that outlives its edit moves superseded
  bytes into the slot of an unmarked row.
- `update_recents` fetches and applies outside the listing barrier and can revert an applied event.
  The follow-ups of an event run outside the guard, and their comment accepts that a listing re-adds
  the row; that cannot happen, since a listing begun after the guard has already seen the change.
- A row just proved alive can still be deleted by the cascade of a gone sibling, through a parent the
  cache has not refreshed; a gone directory takes with it, unasked, the markers of files moved out of
  it; and a gone trashed row stays while an unsent edit is cached below it.
- A re-initialisation stopped between creating the database and writing its state file leaves the old
  state file, whose bookkeeping the next session of that account is given over an empty database;
  stopped before the schema is there, that account's cache never opens again by itself. Whose data a
  session reads is not affected.
- Released lock entries stay in the map until the next prune, so its bound holds against the
  operations in flight when a prune began, not when a guard is obtained.
- `decode_anchor` accepts a sequence this database never issued, and a deletion whose tombstone an
  unsent edit suppressed is never served.
- `last_word_is_untyped` holds for a word of which only a lone backslash or line continuations were
  typed.
- The progress counter wraps when a report finds 2^64 bytes pending with its own, and a keyring write
  that fails midway reads back as a mixture of the two values.

## Model

| member | source | states |
|---|---|---|
| `AnchorCodec.DecodeInvertsEncode` | filen-mobile-native-cache/src/local.rs:279-300 | an anchor decodes to a sequence exactly if it is that sequence's encoding, for every 64-bit sequence |
| `AnchorCodec.DecodeRejectsForeign` | filen-mobile-native-cache/src/local.rs:289-300 | refused exactly when no sequence encodes to it under this instance |
| `AnchorCodec.WipeExpiresAnchors` | filen-mobile-native-cache/src/local.rs:272-284 | an anchor of another incarnation of the database always expires, one of this one never |
| `AnchorCodec.DecodeTrustsSequence` | filen-mobile-native-cache/src/local.rs:289-300 | a sequence above the counter or negative is accepted though never issued |
| `ChangeFeed.PageExtendsAgreement` | filen-mobile-native-cache/src/local.rs:308-374 | whatever was written since the counter was read, applying the page extends a replica's agreement with the store from the old anchor to the new |
| `ChangeFeed.StepKeepsInv` | filen-mobile-native-cache/src/local.rs:321-374 | every write, wipe and separate read of a call keeps the feed's invariant |
| `ChangeFeed.UninterruptedCall` | filen-mobile-native-cache/src/local.rs:321-374 | the separate reads with nothing written between them hand the replica exactly the page and anchor of `changes_since`, or an expiry |
| `ChangeFeed.NoChangeIsSkipped` | filen-mobile-native-cache/src/local.rs:308-374 | in every interleaving of writes with paged and unpaged calls, the replica agrees with the store on everything stamped at or below its anchor |
| `ChangeFeed.CounterReadLastWouldSkip` | filen-mobile-native-cache/src/local.rs:310-320 | read last, the counter would name a change the replica was never shown |
| `ChangeFeed.CaughtUpReplicaIsStore` | filen-mobile-native-cache/src/local.rs:321-374 | caught up, the replica is the store's content, but for exactly the phantoms of suppressed deletions and rows whose second half is not in yet |
| `ChangeFeed.FullPage` | filen-mobile-native-cache/src/local.rs:335-373 | a full page serves the next `limit` changes, and the page and the rest are the diff |
| `ChangeFeed.PagesAreTheDiff` | filen-mobile-native-cache/src/local.rs:335-373 | on an unchanging store the pages end after max(1, ceil(n/limit)) and concatenate to the unbounded diff, each change once, in order |
| `ChangeFeed.PageCountIsCeil` | filen-mobile-native-cache/src/local.rs:341-351 | that number of pages is the ceiling |
| `ChangeFeed.ScratchPagesAreTheDiff` | filen-mobile-native-cache/src/local.rs:327-373 | paging with no anchor: every live item once, in order, no deletions on the first page, and those stamped above its anchor after it |
| `ChangeFeed.ScratchPageCount` | filen-mobile-native-cache/src/local.rs:335-373 | in as many pages as with an anchor |
| `ChangeFeed.SuppressedDeleteIsNeverServed` | filen-mobile-native-cache/sql/init.sql:277-325 | a row deleted with an unsent edit leaves no tombstone: no diff ever mentions it |
| `UnsentEdits.StepKeepsPromise` | filen-mobile-native-cache/src/remote.rs:889-955 | a step keeps "a local copy that differs is marked, an edit is delivered or in a marked slot" if and only if it is none of the hazards, over renames, remints and slots of several files |
| `UnsentEdits.PromiseOverRuns` | filen-mobile-native-cache/src/remote.rs:997-1106 | the same over every run of operations, failures and crashes without a hazard |
| `UnsentEdits.DownloadSparesEdit` | filen-mobile-native-cache/src/remote.rs:2302-2392 | a download writes over a copy only of an unmarked row, with no edit unsent |
| `UnsentEdits.ResolvedHazardShows` | filen-mobile-native-cache/src/remote.rs:2088-2103 | with every remint resolved, a hazard shows in the database and on the disk: the eviction or release of a marked row, or a file under another name than the row's |
| `UnsentEdits.OrderlyRunsKeepPromise` | filen-mobile-native-cache/src/remote.rs:2000-2064 | runs that save, upload and download on settled files, or upload with no copy to send, rescue oldest first and take nothing from a marked row have no hazard and keep the promise |
| `UnsentEdits.RescuePromise` | filen-mobile-native-cache/src/io/mod.rs:541-655 | a rescue keeps the promise exactly when it neither loses the edit nor leaves a superseded slot unmarked |
| `UnsentEdits.RescueReunites` | filen-mobile-native-cache/src/io/mod.rs:526-655 | rescues in log order bring the edit to the row's slot and name, through any chain of remints and whatever it was called |
| `UnsentEdits.RescueEmptiesSlot` | filen-mobile-native-cache/src/io/mod.rs:541-655 | a rescue takes its remint off the log and empties the retired slot unless the replacing uuid is neither the row's nor known to the log |
| `UnsentEdits.DiscardEndsEdit` | filen-mobile-native-cache/src/remote.rs:1978-1995 | clearing the copy or trashing the file ends the edit; the marker goes with the trashing, or with the next drain unless a remint still leads to the row |
| `UnsentEdits.ForgetSparesEdit` | filen-mobile-native-cache/src/remote.rs:1354-1385 | a file gone from the server loses its copy exactly if its row is unmarked |
| `LostEdits.StrandedIsReached` | filen-mobile-native-cache/src/sql/statements.rs:53-66 | a failed upload followed by another device's edit strands the unsent edit in a logged, retired slot |
| `LostEdits.DownloadCanLoseEdit` | filen-mobile-native-cache/src/remote.rs:2366-2373 | a download after a failed rescue loses the edit |
| `LostEdits.RescueCanOverwriteNewerEdit` | filen-mobile-native-cache/src/io/mod.rs:541-655 | a rescue after a second save replaces the newer edit by the older |
| `LostEdits.RescueOutOfOrderCanLoseEdit` | filen-mobile-native-cache/src/io/mod.rs:526-655 | dropping the later remint of a chain first loses the edit |
| `LostEdits.SizeSweepCanLoseEdit` | filen-mobile-native-cache/src/io/mod.rs:1018-1082 | the size sweep can take the only copy of an edit, and the drain then drops its marker |
| `LostEdits.RescueCanLeaveStaleSlot` | filen-mobile-native-cache/src/io/mod.rs:541-655 | a remint that outlives its edit fills an unmarked slot with a superseded version |
| `LostEdits.RenameCanLoseEdit` | filen-mobile-native-cache/src/remote.rs:1900-1976 | after a rename the drain and a download find no copy and drop the marker, and the next version orphans the edit |
| `LostEdits.RenameCanExposeStale` | filen-mobile-native-cache/src/io/mod.rs:203-206 | renamed back, an abandoned file is the unmarked row's copy again |
| `LostEdits.ReleaseCanLoseEdit` | filen-mobile-native-cache/src/remote.rs:2520-2535 | a marker released with a gone directory costs the edit of a file that lives on |
| `LostEdits.TwoFilesIsReached` | filen-mobile-native-cache/src/io/mod.rs:285-311 | a download, a rename, a save and a remote edit leave two files in one retired slot |
| `LostEdits.RescueCanPickWrongFile` | filen-mobile-native-cache/src/io/mod.rs:657-668 | the rescue renames the wrong file over the edit |
| `LostEdits.UploadCanRemoveHiddenEdit` | filen-mobile-native-cache/src/io/mod.rs:387-424 | an upload sends the wrong file and removes the edit with the old slot |
| `LostEdits.OvertakenIsReached` | filen-mobile-native-cache/src/remote.rs:889-930 | an upload stopped before its row is written, a second save and a listing leave the newer edit in a retired slot beside the row's own |
| `LostEdits.UploadCanLoseOvertakenEdit` | filen-mobile-native-cache/src/remote.rs:905-914 | an upload there drops the marker, and the rescue deletes the newer edit |
| `LostEdits.UnrecordedIsReached` | filen-mobile-native-cache/src/remote.rs:889-930 | before that listing the newer edit is the row's own copy, marked and with nothing logged |
| `LostEdits.DrainCanLoseOvertakenEdit` | filen-mobile-native-cache/src/remote.rs:2035-2061 | one turn of the drain there loses the edit and counts it as uploaded |
| `LostEdits.DrainMeetsRemoteEdit` | filen-mobile-native-cache/src/remote.rs:1381-1440 | another device's edit met by the walk leaves the unsent one in a logged slot of a marked row, whether or not the upload could work |
| `FileCache.FileCache.ModifyFileContent` | filen-mobile-native-cache/src/remote.rs:997-1106 | a failed import leaves exactly what it found; bytes the row's version is known to have need no server; any other fail only with the send, leaving the edit in a marked slot, or end on the server, in the row and in the slot |
| `FileCache.FileCache.UploadEditedFile` | filen-mobile-native-cache/src/remote.rs:889-930 | clears the marker exactly if the row's copy is already its recorded version or is sent, delivering an edit that is that copy; else leaves everything but the marker as it was |
| `FileCache.FileCache.UploadFileIfChanged` | filen-mobile-native-cache/src/remote.rs:1381-1440 | an unreachable server changes nothing; else, after the row took what the server has, the marker goes exactly if the upload returns no error, and an edit that was the row's copy is kept or delivered exactly if the walk did not bring the row to another copy |
| `FileCache.UploadedExactly` | filen-mobile-native-cache/src/sync.rs:252-349 | the same for any file, whatever the walk before the upload brings and however the upload ends |
| `FileCache.SettledUploadKeepsPromise` | filen-mobile-native-cache/src/remote.rs:1381-1440 | begun on a settled file with one file in its slot, an upload keeps the promise whatever its walk brings and however it ends |
| `FileCache.FileCache.DownloadFileIfChanged` | filen-mobile-native-cache/src/remote.rs:2302-2392 | a copy that is marked, has the bytes of the row's hashed version, or is unhashed with the row unchanged is returned untouched without the server; every other state is fetched, and without a server fails; an unsent edit that is the row's copy is never fetched over |
| `FileCache.FileCache.RetryOne` | filen-mobile-native-cache/src/remote.rs:2017-2061 | one turn of the drain: without a file under the row's name the marker goes unless a remint still leads to the row; with one, the walk and the upload do exactly what they do for an upload asked for |
| `FileCache.FileCache.RetryPendingUploads` | filen-mobile-native-cache/src/remote.rs:2000-2064 | each pending file is retried on its own, no other is touched, and the count is that of uploads without an error, with nothing sent too |
| `FileCache.SentIsDelivered` | filen-mobile-native-cache/src/remote.rs:932-955 | sending, in either path's order, ends with head, row and slot agreeing and nothing outstanding |
| `FileCache.ResolvedIsRescued` | filen-mobile-native-cache/src/remote.rs:2310-2314 | with no remint unresolved and no other file in its slot, an unsent edit is the row's copy |
| `ListingBarrier.StepKeepsInv` | filen-mobile-native-cache/src/auth.rs:100-106 | no listing, event or follow-up makes a cached fact older than an applied event |
| `ListingBarrier.CacheNeverFallsBehind` | filen-mobile-native-cache/src/remote.rs:2425-2444 | once an event is applied the cache never falls behind it, with any number of listings in flight |
| `ListingBarrier.CaughtUpCacheIsServer` | filen-mobile-native-cache/src/live/mod.rs:968-1005 | with every event applied, what the cache holds is what the server has |
| `ListingBarrier.ListingWritesWhatItFetched` | filen-mobile-native-cache/src/remote.rs:2425-2444 | whatever the server does meanwhile, a listing writes to the cells it lists exactly what the server had when it fetched, and to no other; when it ends, its hold on the barrier ends |
| `ListingBarrier.EventIsApplied` | filen-mobile-native-cache/src/live/mod.rs:974-1005 | once no listing is in flight the next event is applied: exactly the cells it changes, under the guard or, for a deletion, after it |
| `ListingBarrier.RecentsKeepInvIff` | filen-mobile-native-cache/src/remote.rs:541-553 | the unguarded refresh of the recents keeps this exactly when no event applied since its fetch touched what it lists |
| `ListingBarrier.RecentsCanRevertEvent` | filen-mobile-native-cache/src/remote.rs:541-553 | a run in which it reverts a rename |
| `Reconcile.Walk` | filen-mobile-native-cache/sql/clear_pending_upload_subtree.sql:17-28 | the recursive walk finds exactly what a delete would cascade to, loops in the parent chain included |
| `Reconcile.Items.Probe` | filen-mobile-native-cache/src/remote.rs:2505-2540 | the loop over the answers: upsert and spare, release, or spare |
| `Reconcile.ProbeAllFacts` | filen-mobile-native-cache/src/remote.rs:2581-2616 | only a row's own probe spares it, under the uuid its row now has, and only a live one changes more than its marker |
| `Reconcile.ReleasedExactly` | filen-mobile-native-cache/src/remote.rs:2520-2535 | a row's marker goes if and only if, at the turn of some row answered not-found, it is that row or below it |
| `Reconcile.SweepKeepsUnsentEdits` | filen-mobile-native-cache/src/sql/mod.rs:586-660 | nothing the sweep and its cascade delete holds or shelters an unsent edit |
| `Reconcile.DeletedExactly` | filen-mobile-native-cache/sql/init.sql:188-196 | a row goes exactly if the sweep hits it or a row above it through rows not trashed |
| `ReconcileDir.SweptDirExactly` | filen-mobile-native-cache/src/remote.rs:2471-2540 | a directory is swept exactly if it was missing, its own probe said not found (or more than 64 were missing) and no unsent edit is below it |
| `ReconcileDir.SweptFileExactly` | filen-mobile-native-cache/src/remote.rs:2545-2617 | the same for a file |
| `ReconcileDir.SweptIsGoneSibling` | filen-mobile-native-cache/src/remote.rs:2446-2617 | over cache, listing and answers alone: the sweep hits exactly the missing children that are gone or were too many to ask about, with no unsent edit left below them |
| `ReconcileDir.SurvivesExactly` | filen-mobile-native-cache/src/remote.rs:2425-2469 | any other row survives exactly if it is trashed or its parent, for a live child the one the server names, is not below such a gone sibling |
| `ReconcileDir.ListedExactly` | filen-mobile-native-cache/src/remote.rs:2425-2469 | a listed item is in the cache afterwards exactly if it is listed as trashed or its listed parent is not below a gone sibling; its row is then exactly as listed, with its marker unless an answer released it |
| `ReconcileDir.UnlistedExactly` | filen-mobile-native-cache/src/remote.rs:2471-2617 | any other row that stays is as its own probe found it alive, or as the cache had it |
| `ReconcileDir.UnverifiableSurvives` | filen-mobile-native-cache/src/remote.rs:2446-2469 | with at most 64 missing of each kind, a child that could not be verified survives, unchanged, exactly if the directory is not below a gone child; so always, unless cached parents loop |
| `ReconcileDir.LiveRowCanBeCascaded` | filen-mobile-native-cache/src/remote.rs:2505-2540 | a child whose probe found it alive deleted all the same |
| `ReconcileDir.GoneDirectoryTakesEditsBelow` | filen-mobile-native-cache/src/remote.rs:2520-2535 | for any listing and any number of missing rows, a gone directory takes the markers of all rows cached below it, and the rows, unless another unsent edit comes to be below it |
| `ReconcileDir.MarkersReleasedExactly` | filen-mobile-native-cache/src/remote.rs:2471-2617 | in a refresh of a directory a marker goes if and only if its row is, or at its turn is below, one answered not-found |
| `ReconcileDir.LiveEditIsReleased` | filen-mobile-native-cache/src/remote.rs:2520-2535 | a marker and row taken whose file the server still has elsewhere |
| `ReconcileTrash.SweptTrashExactly` | filen-mobile-native-cache/src/remote.rs:581-692 | with any number missing, a trashed row is swept exactly if its own probe said not found, it is not listed, and no unsent edit is below it |
| `ReconcileTrash.TrashSurvivesExactly` | filen-mobile-native-cache/src/remote.rs:555-692 | a row still trashed survives exactly if it is not swept, a restored one exactly if its new parent is not below a swept row |
| `ReconcileTrash.ListedTrashExactly` | filen-mobile-native-cache/src/remote.rs:555-575 | every listed item is in the trash afterwards, exactly as listed, with its marker unless an answer released it |
| `ReconcileTrash.UnlistedTrashExactly` | filen-mobile-native-cache/src/remote.rs:604-692 | any other row that stays is as its own probe found it alive, or as the cache had it |
| `ReconcileTrash.UnverifiableTrashSurvives` | filen-mobile-native-cache/src/remote.rs:604-690 | a missing row not asked about, not verifiable, or alive and still trashed survives |
| `ReconcileTrash.TrashMarkersReleasedExactly` | filen-mobile-native-cache/src/remote.rs:660-685 | markers go if and only if their row is, or at its turn is below, one answered not-found |
| `ReconcileTrash.GoneTakesEditsBelow` | filen-mobile-native-cache/src/remote.rs:660-672 | a gone row takes every marker cached below it |
| `ReconcileTrash.RefreshProgress` | filen-mobile-native-cache/src/remote.rs:604-622 | a refresh settles 64 missing rows or all that are left |
| `ReconcileTrash.RefreshStaysUnsheltered` | filen-mobile-native-cache/src/remote.rs:578-692 | a refresh keeps that condition on cache, listing and answers |
| `ReconcileTrash.TrashSettles` | filen-mobile-native-cache/src/remote.rs:578-692 | with every probe answering restored or gone, n missing rows are settled in ceil(n/64) refreshes, as long as no restored row brings an unsent edit below a gone one |
| `ReconcileTrash.GoneSettledExactly` | filen-mobile-native-cache/src/remote.rs:660-685 | with unsent edits, a gone row is settled exactly if none is below it |
| `ReconcileTrash.ShelteredTrashStays` | filen-mobile-native-cache/src/remote.rs:660-685 | one that is not |
| `AccountCache.StepKeepsInv` | filen-mobile-native-cache/src/auth.rs:347-473 | every step of opening, re-initialising, wiping, refreshing and updating keeps "a database beside a state file that names an account holds only that account's data" |
| `AccountCache.SessionsReadTheirOwn` | filen-mobile-native-cache/src/auth.rs:347-473 | in every run, with a crash or failure anywhere, everything a session can read was written by a session of the same account |
| `AccountCache.OpensTrustedOrEmpty` | filen-mobile-native-cache/src/auth.rs:380-473 | a session opens on the cache unchanged and trusted, or on an empty one that now names it |
| `AccountCache.OpeningExactly` | filen-mobile-native-cache/src/auth.rs:347-473 | with nothing failing: schema hash, a version no older, owner and a sound database with its schema open the cache as it is; only the schema missing opens nothing; anything else is rebuilt empty and names this account |
| `AccountCache.ReopensExactly` | filen-mobile-native-cache/src/auth.rs:380-445 | what a rebuilt session leaves is kept for the next exactly if account and schema are the same and the build asks for no newer version |
| `AccountCache.SessionKeepsWhatItCaches` | filen-mobile-native-cache/src/auth.rs:446-473 | no step of an open session loses anything cached, and what it writes is readable as its account's |
| `AccountCache.SwapExactly` | filen-mobile-native-cache/src/auth.rs:773-822 | the same account's session goes on, another's closes it and opens as from scratch, both after a state-file update in flight |
| `AccountCache.UpdateExactly` | filen-mobile-native-cache/src/auth.rs:259-284 | an update replaces the bookkeeping by that of the open database and leaves version, schema and owner; over an unparseable file it names no owner; one that fails changes nothing |
| `AccountCache.DisabledWipeExactly` | filen-mobile-native-cache/src/io/mod.rs:98-130 | the wipe for a disabled provider leaves the state file and at most what it failed to remove |
| `AccountCache.LateUpdateWouldLeak` | filen-mobile-native-cache/src/auth.rs:259-284 | a state-file update crossing an account swap would hand one account's data to another |
| `AccountCache.StepKeepsDescribed` | filen-mobile-native-cache/src/auth.rs:347-379 | the state file stays about its database exactly while no re-initialisation stops between the two |
| `AccountCache.SeedsDescribeDatabase` | filen-mobile-native-cache/src/auth.rs:373-380 | then a session is only seeded with the bookkeeping of the database it opens |
| `AccountCache.StopInWindowSeedsStale` | filen-mobile-native-cache/src/auth.rs:347-371 | stopped there, the same account is given the old bookkeeping over an empty database |
| `AccountCache.WindowIsReached` | filen-mobile-native-cache/src/auth.rs:347-371 | the window is reached whenever the database is missing |
| `AccountCache.SchemalessNeverOpens` | filen-mobile-native-cache/src/auth.rs:446-473 | a trusted database without its schema fails every later open of that account and is never rebuilt by them |
| `AccountCache.StopBeforeSchemaIsStuck` | filen-mobile-native-cache/src/auth.rs:363-367 | a crash between creating the database and its schema leads there when the state file still trusts the account |
| `FileLocks.StepKeepsInv` | filen-mobile-native-cache/src/file_locks.rs:23-33 | every acquisition, release, dropped waiter and pruned entry keeps one shared mutex per item in use |
| `FileLocks.MutualExclusion` | filen-mobile-native-cache/src/file_locks.rs:23-33 | in every interleaving two tasks never hold the lock of one item |
| `FileLocks.MayAcquireExactly` | filen-mobile-native-cache/src/file_locks.rs:32-32 | a waiting task may get its lock exactly when no other task holds that item's |
| `FileLocks.LockExactly` | filen-mobile-native-cache/src/file_locks.rs:23-33 | a call with nothing in between: the entries are exactly the items in use, every other task is where it was, and the lock is held unless another task holds that item's |
| `FileLocks.UsesEnd` | filen-mobile-native-cache/src/file_locks.rs:32-32 | a dropped guard, a waiter that gives up and a call dropped in the map leave everything else as it was |
| `FileLocks.MapIsSizedToOperations` | filen-mobile-native-cache/src/file_locks.rs:23-33 | after taking an entry the map has at most one per operation in flight when the prune began, and its own |
| `FileLocks.PruneIsExactIff` | filen-mobile-native-cache/src/file_locks.rs:26-30 | the entries are exactly the items in use if and only if no task was the last to leave its item after its entry was looked at |
| `FileLocks.ReleasedEntriesLinger` | filen-mobile-native-cache/src/file_locks.rs:32-32 | a run in which a guard is obtained with more entries than operations |
| `SearchPages.CollectFiltered` | filen-mobile-native-cache/src/search.rs:145-175 | unchanging with unique paths: exactly the first 1000 of the fully filtered table, in order; changing: never a path twice |
| `SearchPages.NoPostFilterPassesAll` | filen-mobile-native-cache/src/search.rs:177-181 | without a constraint of its own the filter passes everything |
| `SearchPages.FirstPageIsEnough` | filen-mobile-native-cache/src/search.rs:151-153 | when the loop is skipped, the first page already is that answer |
| `SearchPages.WildcardMatchesExactly` | filen-mobile-native-cache/src/search.rs:262-281 | a pattern with a star matches exactly prefix, anything, suffix, case aside |
| `SearchPages.MatchesExactly` | filen-mobile-native-cache/src/search.rs:262-281 | a pattern matches its text around one star, or its text, ASCII case aside |
| `SearchPages.FilteredExactly` | filen-mobile-native-cache/src/search.rs:231-256 | the filter passes files of a mime type asked for, of at least the size, modified no earlier; and directories only where neither type nor size is asked for, created no earlier |
| `Progress.ThrottledProgress.Report` | filen-sdk-rs/src/progress.rs:67-86 | an undisturbed report forwards all that is pending exactly when it is due |
| `Progress.ThrottledProgress.Flush` | filen-sdk-rs/src/progress.rs:88-98 | a flush forwards what is pending and leaves nothing |
| `Progress.BytesAreConserved` | filen-sdk-rs/src/progress.rs:67-97 | in every interleaving of the atomic steps, recorded bytes are pending, taken or forwarded if and only if no report found 2^64 pending with its own |
| `Progress.FlushDeliversTheRest` | filen-sdk-rs/src/progress.rs:88-97 | after all reports returned and a flush, the forwarded total is exact |
| `Progress.DueReportForwards` | filen-sdk-rs/src/progress.rs:67-86 | over the atomic steps of one report: with the interval passed since the last claim it forwards all that is pending and its own bytes, before that it only adds them |
| `Progress.ClaimsAreThrottled` | filen-sdk-rs/src/progress.rs:72-84 | with a positive interval, claims times interval never exceed the elapsed time |
| `Progress.CounterCanWrap` | filen-sdk-rs/src/progress.rs:71-71 | past 2^64 pending bytes the counter loses 2^64 |
| `Interrupt.State.PressCtrlC` | filen-cli/src/interrupt.rs:157-162 | the state and action a press leads to, updated in place |
| `Interrupt.PressExactly` | filen-cli/src/interrupt.rs:157-190 | a press quits if and only if no command is counted, one is being cancelled or a stopping guard is alive; otherwise it only joins the queue and, without an owner, starts the cancelling |
| `Interrupt.PressCancelsCommand` | filen-cli/src/interrupt.rs:231-302 | a press without an owner that does not quit leaves the CLI running; every running command is caught once its receiver has come to the press, and fails as cancelled |
| `Interrupt.State.CloseStdout` | filen-cli/src/interrupt.rs:164-174 | the same for a closed stdout |
| `Interrupt.State.EndCatching` | filen-cli/src/interrupt.rs:200-205 | a command stops counting, and with the last one the cancelling ends |
| `Interrupt.Drain` | filen-cli/src/interrupt.rs:250-264 | the check as a command ends is true exactly if an unowned press, or more than the queue holds, is unread |
| `Interrupt.StepKeepsCounts` | filen-cli/src/interrupt.rs:82-93 | counters are the numbers of live guards, so none saturates, and cancelling implies a counted command |
| `Interrupt.EveryRunKeepsInv` | filen-cli/src/interrupt.rs:220-302 | in every run a command completes only if every press on it was owned, and fails as cancelled only if one was not or its receiver lagged |
| `Interrupt.CtrlCIsNeverLost` | filen-cli/src/interrupt.rs:54-56 | a Ctrl-C on a counted command with no owner quits, or that command never completes, as it ends and when lagged included |
| `Interrupt.CatchStarts` | filen-cli/src/interrupt.rs:220-229 | a command that begins is counted and sees the presses sent from then on |
| `Interrupt.EndsExactly` | filen-cli/src/interrupt.rs:250-271 | a command whose work is done fails exactly if an unread press cancels it or its receiver lagged, and completes otherwise; with the last one the cancelling ends |
| `Interrupt.DropExactly` | filen-cli/src/interrupt.rs:273-288 | a command its caller drops is no longer counted |
| `Interrupt.FurtherPressQuits` | filen-cli/src/interrupt.rs:157-162 | after it every further press quits while a command is counted |
| `Interrupt.PressWhileStoppingQuits` | filen-cli/src/interrupt.rs:342-367 | a press quits from the moment a command says it is stopping |
| `Interrupt.StoppingEnds` | filen-cli/src/interrupt.rs:341-370 | from saying that it stops until its guard is dropped a press quits, and after that nothing is left of it |
| `Interrupt.ClosedStdoutActsOnce` | filen-cli/src/interrupt.rs:164-181 | once closed, stdout closes nothing again and the exit code is fixed, over every run |
| `Interrupt.FirstClosedStdout` | filen-cli/src/interrupt.rs:164-181 | the code is 1 exactly if a file's content was being written; with no command it quits, else it ends the command |
| `Interrupt.StreamsComeAndGo` | filen-cli/src/interrupt.rs:77-93 | a data stream is counted until it is dropped |
| `Interrupt.OwnedPressWaits` | filen-cli/src/interrupt.rs:309-339 | a press waits in the owner's guard until asked for |
| `Interrupt.OwnershipEnds` | filen-cli/src/interrupt.rs:305-359 | a new owner finds no earlier press, and giving the ownership up leaves no trace |
| `Interrupt.AskedOnce` | filen-cli/src/interrupt.rs:320-339 | a press that waits is found by asking, once |
| `Interrupt.OwnedPressGoesToOwner` | filen-cli/src/interrupt.rs:184-190 | an owned press cancels nothing |
| `ShellWords.SplitLine` | filen-cli/src/completion.rs:333-410 | the loop reads as the POSIX quoting automaton does, on every input |
| `ShellWords.QuoteCompletion` | filen-cli/src/completion.rs:414-432 | the quoter's buffer is the quoted word |
| `ShellWords.WordBeganInGap` | filen-cli/src/completion.rs:377-384 | the last word began between words and outside a comment: splitting composes there |
| `ShellWords.QuotedReadsBack` | filen-cli/src/completion.rs:409-432 | between two words, a quoted word reads as that word in that style |
| `ShellWords.CompletionReadsBack` | filen-cli/src/completion.rs:333-432 | kept prefix and quoted word split into the earlier words and exactly that word, and quoting it again as reread gives the same text |
| `ShellWords.UntypedExactly` | filen-cli/src/completion.rs:326-331 | a begun last word counts as untyped exactly if it is line continuations and at most a dangling backslash |
| `ShellWords.NothingBegun` | filen-cli/src/completion.rs:326-331 | with none begun the whole input is kept and the word untyped |
| `ShellGrammar.SplitIsMeaning` | filen-cli/src/completion.rs:333-410 | for any blanks, comments and words of plain, escaped, single- and double-quoted pieces, the last of which may be unfinished, the split is the words the pieces mean, the text before the last and the quotes it began in |
| `ShellGrammar.EveryInputIsALine` | filen-cli/src/completion.rs:333-410 | and every input is such a line, so this says what every input splits into |
| `LogRotation.StepKeepsInv` | filen-cli/src/log_files.rs:333-389 | every system call of every process, failing or not, keeps files, claims and lines consistent |
| `LogRotation.EveryLineInOneFile` | filen-cli/src/log_files.rs:333-389 | for any number of processes in any interleaving, a written line stands in exactly one linked file, once |
| `LogRotation.ClaimsAreExclusive` | filen-cli/src/log_files.rs:372-389 | two processes never hold the same moved-aside name |
| `LogRotation.RenameReplacesEmptyClaim` | filen-cli/src/log_files.rs:361-371 | a rename replaces only the empty file its own process claimed the name with |
| `LogRotation.FilesOnlyGrow` | filen-cli/src/log_files.rs:333-389 | no step shortens or unlinks a file that holds a line |
| `LogRotation.SmallFileGrows` | filen-cli/src/log_files.rs:333-338 | a file within the size is appended to, and no name changes |
| `LogRotation.FullFileRotates` | filen-cli/src/log_files.rs:333-389 | above the size, the daily file goes unchanged to the first free moved-aside name, and the line stands alone in a new one |
| `LogRotation.MovedFileIsFollowed` | filen-cli/src/log_files.rs:343-352 | with its file full but moved aside by another process, the line goes to the daily file of the moment, a new one if there is none |
| `LogRotation.FailedRotationStillWrites` | filen-cli/src/log_files.rs:329-338 | a rotation failing at the stat, the claim or the rename writes the line past the size and leaves every name |
| `LogRotation.DayIsOpened` | filen-cli/src/log_files.rs:214-231 | a process that starts or goes on to a later day has that day's file open, and never goes back |
| `LogRotation.SizeAdds` | filen-cli/src/log_files.rs:333-334 | a file's bytes are those of its lines |
| `LogRotation.AloneIsRun` | filen-cli/src/log_files.rs:333-338 | the uninterrupted steps of one process are a run like any other |
| `LogPrune.IsLogFileName` | filen-cli/src/log_files.rs:188-196 | true exactly for `<name>.log` and `<name>.log.old<digits>` |
| `LogPrune.ExpireFiles` | filen-cli/src/log_files.rs:137-166 | the first pass and its tracked total |
| `LogPrune.ExpiresExactly` | filen-cli/src/log_files.rs:159-164 | it deletes exactly the inactive expired files that can be deleted |
| `LogPrune.ExpiredExactly` | filen-cli/src/log_files.rs:159-161 | a file expires once retention and one more whole day have passed since it was written, and never when written in the future |
| `LogPrune.Prune` | filen-cli/src/log_files.rs:133-176 | the second pass tries the oldest files, each while the total exceeds the cap, and stops as soon as it does not; the total is the bytes present, within the cap unless only active or undeletable files are left; oldest first |
| `LogPrune.PrunedToCap` | filen-cli/src/log_files.rs:167-175 | the tracked total is the bytes present, within the cap unless only active or undeletable files are left |
| `LogPrune.OldestFirst` | filen-cli/src/log_files.rs:167-175 | what the second pass deletes was written no later than all it did not get to, and of the same time is no larger |
| `LogPrune.SortByAgeSorts` | filen-cli/src/log_files.rs:167-167 | the order is sorted and a permutation |
| `Keyring.SplitOnCharBoundaries` | filen-cli/src/util.rs:180-196 | non-empty parts of whole characters, at most `max` bytes or one longer character, concatenating to the value |
| `Keyring.CutAtBoundary` | filen-cli/src/util.rs:186-193 | cut at a boundary, both sides are whole characters |
| `Keyring.PartsFit` | filen-cli/src/util.rs:71-72 | within the keyring's limit every part fits |
| `Keyring.ChunkKeyInjective` | filen-cli/src/util.rs:135-137 | keys of different names or parts differ |
| `Keyring.LongKeyringEntry.Read` | filen-cli/src/util.rs:139-148 | the parts up to the first missing one, none if there is none |
| `Keyring.LongKeyringEntry.Write` | filen-cli/src/util.rs:150-159 | completed, the store holds exactly the value's parts; failed, the first of them are set and of a longer value's the first deleted, and every other entry is untouched |
| `Keyring.LongKeyringEntry.DeleteFrom` | filen-cli/src/util.rs:166-178 | deletes a run of parts from the first on and nothing else; completed, the first is gone |
| `Keyring.WriteThenRead` | filen-cli/src/util.rs:139-159 | whatever the store held, a read after a completed write returns the value, none for the empty one, and other names are untouched |
| `Keyring.FailedWriteMixes` | filen-cli/src/util.rs:152-159 | after a write that got so far, a read finds the parts set followed by what was stored behind them, or the new value once a leftover was deleted |
| `Keyring.ReadsBackNewExactly` | filen-cli/src/util.rs:152-159 | that is the new value exactly if a leftover was deleted or what was stored behind says the same as the parts not set |
| `Keyring.ReadsBackOldExactly` | filen-cli/src/util.rs:152-159 | and the old one exactly if, a leftover deleted, the values are the same; no more set than stored, the parts set say the same as those they replaced; more set, these and what lay out of reach behind them say the old value |
| `RemotePath.Navigate` | filen-cli/src/util.rs:20-37 | the loop is navigation part by part |
| `RemotePath.NavigationNormalises` | filen-cli/src/util.rs:16-37 | navigation from a normalised path, or to an absolute one, is normalised |
| `RemotePath.NavigationComposes` | filen-cli/src/util.rs:20-37 | going to a, then to b, is going to a/b, from any path |
| `RemotePath.AbsoluteReplaces` | filen-cli/src/util.rs:20-27 | an absolute navigation does not depend on where it starts |
| `RemotePath.OnePart` | filen-cli/src/util.rs:27-36 | an empty part and `.` lead nowhere, `..` to the parent, the root being its own, and a name below |
| `RemotePath.PartByPart` | filen-cli/src/util.rs:20-37 | any navigation is one part after another |
| `RemotePath.NormalisedIsFixed` | filen-cli/src/util.rs:11-14 | a normalised path is its own normal form |
| `RemotePath.ParentAndBasename` | filen-cli/src/util.rs:39-58 | the parent is where `..` leads, a non-root path is its parent navigated to its base name, only the root has none |

## Left out

- SQLite, HTTP, the SDK client and the file system themselves: what they answer and when they fail are parameters; uuids and stable ids are unique, a stamped write takes a larger sequence number, counters stay below 2^63, renames are atomic.
- Directory names in `Reconcile`: an upsert resolves by identity; the last resort of matching a directory by parent and name, and the retirement of a uuid reused across types, are not modelled.
- ReconcileTrash.TrashSettles: the condition on restored rows is sufficient; row by row, `ReconcileTrash.GoneSettledExactly` is exact, and depends on the order the answers come in.
- ListingBarrier: facts about items are independent cells; local operations that write rows without the barrier are not modelled.
- UnsentEdits: one operation on a file at a time, as the item lock has it; bytes edited in place behind the cache's back, empty slot directories, names that cannot be decoded or used on disk, thumbnails and pins are left out, and the drain's check and clear are one step.
- FileCache: an operation runs to its end there; a crash between its steps is covered by `UnsentEdits`. A walk finds the file, misses it or fails: that it meets another file of that name on the server, or creates a file for a path no row has, is not modelled.
- AccountCache: one process; the schema is created in one step; and state-file updates finish before a change of session, as the state lock has it as long as nobody drops an update: `update_saved_db_state` ends in `tokio::fs::rename`, which goes on after its future is dropped (as filen-mobile-native-cache/src/io/mod.rs:262-269 says of downloads), so a cancelled call can release the lock with the rename in flight, and that is the case `AccountCache.LateUpdateWouldLeak` describes; two processes sharing the directory are not modelled.
- LogRotation: pruning and the truncation of `latest.log` at start, which deletes lines on purpose; a write is one append.
- LogPrune.Prune: for sizes that sum below 2^64; above, the tracked total saturates.
- Progress: memory ordering beyond a load that may return anything; elapsed time is a monotone clock.
- FileLocks.MayAcquireExactly: which waiter of an item is next is not modelled.
- Interrupt: task scheduling and the process's own exit path; a quit ends the run.
- `Keyring.Utf8`: admits every sequence of whole characters by length, overlong forms included.
- Scheduling fairness and real time: only safety is proved.
- The offline copy path, how a path is resolved, thumbnails, encryption, the updater, prompts, the command line and generated bindings.
