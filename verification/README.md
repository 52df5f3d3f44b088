# Whitford, modelled in Dafny

Whitford is a Gmail client. This project models the four parts of it that decide what the user sees and
what stays on disk, and proves what they promise over every input, every run and every crash point:

- **Attachments and selection** (`src/gmail.rs`): the content-transfer decoder as a byte transducer
  (`TransferDecoding`), the decoder object and the ranged-read loop (`AttachmentFetch`), the two MIME walks
  (`MimeWalk`, `MimeRules`), and the choice and accounting of the newest messages (`FetchAccounting`).
- **Local store** (`src/cache.rs`): the folder-view cache with its notification watermark (`FolderStore`,
  `FolderCacheRefinement`, `FolderCacheRetention`, `NewestRows`, `CommitValidity`, and one poll of the Inbox in
  `InboxSync`), the byte-budgeted body store (`BodyStore`, `BodyStoreGuarantees`, `BodyRetention`, `BodyUpkeep`) and the
  account cleanup (`AccountSwitch`). A disk is a small record; every atomic write, rename or removal is one step, and
  a crash may fall between or inside any two.
- **Optimistic changes and Undo** (`src/state.rs`, `src/model.rs`): the reducer itself (`MutationReducer`), which
  changes it sends and what they and Gmail's answers write into each row (`IssuedChanges`, `RowAttributes`), the
  rows it takes and gives back (`RowRemoval`, `MutationRollback`, `AnyOrderRefusal`), what the screen shows meanwhile
  (`LabelLists`, `OverlayInvariant`, `LabelCap`), the Undo token over whole runs (`UndoMachine`), changes forgotten or
  outdated (`RetiredChanges`), and the agreement of the screen with the cached views (`ScreenAndDisk`).
- **Requests and scheduling** (`src/state.rs`): the folder and search lanes (`RequestLanes`, `LaneRules`), the lanes and
  the reducer as one machine (`RowMovement`, `RowPlacement`, `FindingsPlacement`), and the background sync
  (`BackgroundSync`, `Polling`).

The worker, the server, the timers and the disk are environments that may delay, reorder, repeat or lose what they
do. Operations the source performs by updating fields are classes here; each method's contract ties the new state
to a function of the old one (`Mutate`, `Finish`, `ReplaceStore`, `SaveWrites`, `TimerFired`, ...), and the
theorems are about those functions over runs. What those functions write is stated apart from them as well, on the
fields of rows, entries, files and requests (`NewestRows`, `CommitValidity`, `BodyUpkeep`, `RowAttributes`,
`IssuedChanges`, `LaneRules`, `Polling`, `MimeRules`), and `KnownAnswers` fixes tables and limits by published values.
`Mail`, `MessageIds`, `Sorting`, `Text`, `Numbers` and `Results` hold what the parts share.

Six statements one would expect are false of the code. Each comes with an input, and with the exact condition
under which it holds:

- A refused label addition restores the label list: not when the list is full and the new label does not sort last
  (`LabelCap.FullListLosesLabel`, `LabelCap.RefusedAdditionOnReducer`).
- The rows shown are those of the selected folder: not after Undo of a change made in another folder, nor when a
  refresh finishes over another folder than Inbox (`RowPlacement.UndoMisplacesArchived`,
  `RowPlacement.RefreshOverFolder`, `RowPlacement.FolderOpenedDuringRefresh`, `RowPlacement.PlacementStep`).
- The results shown are of messages the search found: not when a change made in earlier results is put back
  (`FindingsPlacement.RefusalIntrudes`, `FindingsPlacement.FindingsStep`).
- A folder that is loading can still be answered: not once a stored Inbox arrives meanwhile
  (`RequestLanes.CacheStrandsFolder`, `RequestLanes.AnswerableStep`).
- A sound fetched folder is always cached: not while another view that stays holds rows of a mailbox the new catalog
  has renamed (`CommitValidity.RenamedFolderExample`, `CommitValidity.RenamedFolderBlocksCommit`,
  `CommitValidity.CommitsExactly`).
- Replacing the store removes the previous account's attachments: not when its index cannot be read
  (`AccountSwitch.UnreadableIndexExample`, `AccountSwitch.DamagedIndexKeepsAttachments`).

The table names the theorems, the operations with loops and the main branching operations. The remaining handlers are
methods too, each proved to compute the function the theorems are about: `AttachmentDecoder.Push`; the gated commit of
`FolderCache`; the other operations of `BodyCache`, `CacheRoot` and `Reducer`; `AppState`'s timer, failure, restart,
stop and account handlers; and all of `Lanes`.

## Model

| member | source | states |
|---|---|---|
| `TransferDecoding.PendingStaysShort` | src/gmail.rs:1719-1781 | From a state with fewer pending bytes than one group, any input leaves fewer than one group pending |
| `TransferDecoding.ChunkSplit` | src/gmail.rs:1698-1781 | Cutting an input at any point changes neither acceptance nor the octets put out, final chunk or not |
| `TransferDecoding.Base64Exact` | src/gmail.rs:1719-1820 | Base64 decoding yields given octets if and only if the text spells them by section 4 of RFC 4648, with ASCII whitespace anywhere and trailing '=' present or dropped, within the size limit |
| `TransferDecoding.QuotedPrintableExact` | src/gmail.rs:1753-1790 | Quoted-printable decoding yields given octets if and only if the text is a row of literals, escapes of an octet with digits in either case, and soft breaks (section 6.7 of RFC 2045) that mean them |
| `TransferDecoding.EscapeDecodes` | src/gmail.rs:1753-1790 | For every octet '=' and its two digits, each in either case, decode to exactly that octet; the digits come from an encoder's table of its own |
| `TransferDecoding.IdentityExact` | src/gmail.rs:1698-1717 | 7bit, 8bit and binary sections come out unchanged up to the limit; an unknown encoding is refused |
| `TransferDecoding.PackUnpack` | src/gmail.rs:1792-1820 | The four-sextet packing undoes the encoder's unpacking for every octet string |
| `TransferDecoding.Base64RoundTrip` | src/gmail.rs:1719-1820 | Any octets up to the limit are recovered from their base64 text, whitespace inserted anywhere and any number of the trailing '=' dropped |
| `TransferDecoding.QuotedPrintableRoundTrip` | src/gmail.rs:1753-1790 | Any octets up to the limit are recovered from any quoted-printable form of them |
| `KnownAnswers.Base64Vectors` | src/gmail.rs:1719-1820 | The one-group vectors of section 10 of RFC 4648 decode to the published octets |
| `KnownAnswers.EscapeAnswers` | src/gmail.rs:1753-1790 | =3D and =3d decode to '=', =AE to octet 174 |
| `AttachmentFetch.AttachmentDecoder.PushBase64` | src/gmail.rs:1719-1751 | The byte loop computes the transducer's state and octets, or its refusal |
| `AttachmentFetch.AttachmentDecoder.PushQuotedPrintable` | src/gmail.rs:1753-1780 | The byte loop computes the transducer's state and octets, or its refusal |
| `AttachmentFetch.HonestFragments` | src/gmail.rs:1896-1935 | Whatever fragment sizes a server chooses, the fragments join up to the section |
| `AttachmentFetch.RefusalIsFinal` | src/gmail.rs:1896-1935 | A refused chunk means one-shot decoding of the whole section fails too |
| `AttachmentFetch.FetchAttachmentInner` | src/gmail.rs:1857-1936 | The loop ends, flags exactly the last chunk as final, and succeeds if and only if the reads supply the section, its one-shot decoding succeeds and every write is taken; then it has written those octets. Each error names its cause: a changed mailbox, a message gone, a malformed reply, a failed write, or the refusal decoding what was read gives |
| `AttachmentFetch.FetchAttachment` | src/gmail.rs:1826-1936 | Unfit targets and over-size sections are refused; otherwise, against a server that answers from a section, success and octets are those of decoding the section at once |
| `MimeWalk.AttachmentWalk.CollectAttachments` | src/gmail.rs:534-576 | The walk with a shared path appends the attachment leaves below a node in document order up to the limit and leaves the path as it found it |
| `MimeWalk.AttachmentStateOf` | src/gmail.rs:578-590 | List sync stores the first 20 attachments in document order |
| `MimeWalk.BodyPlanWalk.CollectBodyPlan` | src/gmail.rs:606-671 | The second walk completes a plan with the first fetchable plain and HTML parts and the same attachments |
| `MimeWalk.BodyPlanOf` | src/gmail.rs:673-682 | The body plan holds the first plain part, the first HTML part, and exactly the attachments list sync stores |
| `MimeRules.AttachmentExact` | src/gmail.rs:482-520 | A part is an attachment if and only if it is marked as one, carries a name or is no text; its name, path, encoding, size and media type are its own |
| `MimeRules.FirstTextExact` | src/gmail.rs:606-671 | The text chosen is the first unnamed, unmarked text of the subtype in a known encoding at a path of 1 to 32 positive numbers; there is none only if there is no such part |
| `MimeWalk.PathsApart` | src/gmail.rs:534-671 | No emitted section path is a prefix of another |
| `MimeWalk.AttachmentPathsPrefixFree` | src/gmail.rs:534-590 | The stored attachments have pairwise prefix-free section paths |
| `MimeWalk.SectionResolves` | src/gmail.rs:534-671 | Reading an RFC 3501 section number from the root leads to the part it was computed for |
| `MimeWalk.PathIsSectionNumber` | src/gmail.rs:534-671 | A path names its own part by section 6.4.5 of RFC 3501 if and only if the way to it passes through no enclosed message with a multipart body |
| `MimeWalk.PathsAreSectionNumbers` | src/gmail.rs:534-671 | In every structure whose enclosed messages have media type MESSAGE, as section 9 of RFC 3501 has it, each path leads from the root to its own part, forwarded messages included |
| `FetchAccounting.NewestSequenceSet` | src/gmail.rs:426-435 | The window ends at the newest message and holds exactly min(limit, count) sequence numbers; there is none for an empty mailbox or an unknown limit |
| `FetchAccounting.SelectedAreNewest` | src/gmail.rs:379-388 | UID selection keeps the largest distinct non-zero UIDs, ascending, up to the limit |
| `FetchAccounting.SearchKeepsNewest` | src/gmail.rs:412-420 | A search keeps the 500 largest UIDs and says it was truncated exactly when it dropped one |
| `FetchAccounting.DiscoveryAccounts` | src/gmail.rs:437-456 | Discovery keeps the largest distinct UIDs up to min(expected, limit); its skip count is the absolute difference between that number and the distinct UIDs seen |
| `FetchAccounting.ClassifySummaries` | src/gmail.rs:1135-1194 | The records are those of the rows that come first for a requested UID, first for their non-zero Gmail id, and have a header, in strictly descending UID order with distinct Gmail ids; every rejected row and every requested UID never received is counted as skipped |
| `FetchAccounting.FetchNewest` | src/gmail.rs:1047-1131 | Over the whole fetch, records plus skips cover the min(limit, count) newest messages, and the records are among the UIDs discovered |
| `MessageIds.GmailRoundTrip` | src/model.rs:182-193 | An id parses to n if and only if n is in 1..2^64-1 and the id is its printed form |
| `MessageIds.BodyFileNameInjective` | src/cache.rs:1551-1556 | Distinct messages never share a body file |
| `MessageIds.BodyFileNameShape` | src/cache.rs:1551-1556 | A body file is neither the manifest nor a temporary file |
| `FolderStore.FolderCache.ReplaceFolderAndSave` | src/cache.rs:1125-1225 | Replacing a folder writes the newest rows, evicts to eight views and updates the watermark, or reports why nothing valid could be written |
| `FolderStore.FolderCache.LoadFolder` | src/cache.rs:1022-1057 | A load is an error, a miss, or the view's newest rows with its access time stamped |
| `NewestRows.CommitKeepsNewest` | src/cache.rs:1151-1162 | A commit returns and stores min(limit, 500, n) of the n rows fetched for the folder: no row dropped is newer than one kept, undated rows come last, ties go to the larger id, and they stand newest first with the fetch's own figures |
| `NewestRows.NewestAreServed` | src/cache.rs:1022-1225 | After any run and a latest commit, a load shows the newest of the rows fetched for the folder, newest first by their own dates, as many as both limits allow |
| `NewestRows.LoadServesNewest` | src/cache.rs:1022-1057 | A hit shows the newest rows of the stored view, newest first by their own dates, counts them and their fallbacks, and gives the view's own figures |
| `NewestRows.PruneKeepsNewest` | src/cache.rs:949-976 | Pruning leaves each view its newest rows by their own dates, sets its limit, and changes nothing else in the store |
| `CommitValidity.CommitsExactly` | src/cache.rs:1584-1638 | A fetched folder is committed if and only if the limit is offered, the address and the catalog are sound, the rows to be kept are sound with distinct ids, and each other view that stays holds rows of the mailbox the new catalog names for its folder |
| `CommitValidity.RenamedFolderBlocksCommit` | src/cache.rs:1185-1212 | Once the catalog renames another staying view's mailbox, no commit succeeds, not even of sound rows, and the store is left as it was |
| `CommitValidity.RenamedFolderExample` | src/cache.rs:1185-1212 | With Sent cached under its old name, an Inbox fetched without mail under a sound catalog with the new name is not committed |
| `CommitValidity.CommittedRecord` | src/cache.rs:1164-1217 | What a commit writes is a sound record of version 4 with the fetched catalog, under the spelling the account was first stored with, and every other view in it is one stored before |
| `CommitValidity.AcceptedExactly` | src/cache.rs:1584-1638 | A reader accepts a record if and only if it is of version 3 or 4 and its account, catalog, watermark, views and every row are sound, ids and folders each once |
| `Mail.FindExact` | src/model.rs:368-370 | A catalog names for an id the first folder that has it, and none only if no folder has it |
| `CommitValidity.LoadGates` | src/cache.rs:1022-1046 | A load is a hit if and only if the limit is offered, the account is named, no cleanup is pending, and the readable index is the account's and has the folder; anything else writes nothing and is told apart |
| `CommitValidity.LoadStamps` | src/cache.rs:1046-1057 | A hit stamps the view it shows with the time of the load and changes nothing else |
| `FolderStore.FolderCache.SavePreferencesAndPrune` | src/cache.rs:949-976 | The loop trims every view to the newest rows of the new limit; an unknown limit and an unreadable index are reported |
| `FolderStore.FolderCache.ConfirmInView` | src/cache.rs:586-633 | The loops over one view compute what a confirmed change makes of its rows |
| `FolderStore.FolderCache.PersistConfirmedMutation` | src/cache.rs:580-634 | The loop applies a confirmed change to every cached view of the account; a blank account and an unreadable index are reported |
| `FolderStore.FolderCache.PersistReconciledInbox` | src/cache.rs:655-695 | The loops write a reconciled state to every cached view of the account; a blank account and an unreadable index are reported |
| `RowAttributes.ChangeIsWritten` | src/cache.rs:580-695 | A confirmed change or Gmail's report is written to every cached view of its account, attribute by attribute and row by row: the change's attribute or the five reported ones, with everything else of the row, every other row and the rest of the disk as they were; a message gone leaves Inbox alone, a moved one every folder it left |
| `FolderCacheRefinement.StepAgrees` | src/cache.rs:580-695 | Each operation, crash or damage keeps every stored view equal to what an unbounded map from folder to rows holds |
| `FolderCacheRefinement.LoadRefinesMap` | src/cache.rs:1022-1057 | After any run from an empty disk, crashes and damage included, what a load shows are the map's newest rows for that folder of that account; `NewestRows.TrimmedAreNewest` says on dates which those are |
| `FolderCacheRetention.CommitEvictsOldest` | src/cache.rs:1185-1217 | After a commit the store holds at most eight views; a view still listed, or just written, is there if and only if fewer than eight others rank before it, and what is missing was accessed no later than everything that stayed |
| `FolderCacheRetention.CommitDropsInOrder` | src/cache.rs:1185-1201 | A view a commit drops was accessed before every view that stayed, or at the same time and comes after it in the order of folders |
| `FolderCacheRetention.CommitIsServed` | src/cache.rs:1022-1225 | After a commit with the latest access time a load of that folder is a hit with exactly the newest rows it wrote |
| `FolderCacheRetention.RecentlyUsedIsServed` | src/cache.rs:1022-1225 | Over every run of loads, prunes, changes and commits of the account in which fewer than eight other folders are opened or written, every load of that folder stays a hit and shows the unbounded map's newest rows |
| `CommitValidity.LoadedIsKept` | src/cache.rs:1022-1217 | A folder loaded later than every other view was accessed stays a hit over every undisturbed run in which fewer than eight other folders are opened or written |
| `FolderCacheRefinement.GateAnnounces` | src/cache.rs:1068-1123 | In every run a gated commit announces exactly the unread Inbox ids absent from the last committed window of the same account, and nothing without an initialized baseline |
| `FolderCacheRetention.StepKeepsWatermark` | src/cache.rs:1176-1207 | Loads, prunes, changes and other folders' commits leave the watermark on disk as it is, an Inbox commit sets it to its own window, and each keeps the record valid and the account's |
| `FolderCacheRetention.WatermarkStays` | src/cache.rs:1068-1207 | In every such run without an Inbox commit the watermark on disk stays what it was |
| `FolderCacheRetention.AnnouncedOnce` | src/cache.rs:1068-1123 | Between two Inbox commits of an undisturbed account, an unread row of the second is announced if and only if its id did not fit the first one's window |
| `FolderCacheRefinement.AnnouncedFromWindow` | src/cache.rs:1068-1123 | The same after any run at all, crashes and damage included, whenever a baseline is left |
| `FolderCacheRetention.NeverAnnouncedAgain` | src/cache.rs:1068-1123 | Fetches committed with their own limit announce a message at most once for as long as the account's Inbox commits hold it, through every run, restarts, damage and other accounts included |
| `InboxSync.SyncInbox` | src/worker.rs:4560-4615 | A poll commits distinct Inbox rows, no more than the limit it commits with, and every message of the newest window is among them or counted as skipped |
| `FolderCacheRefinement.WindowHoldsAll` | src/cache.rs:1190-1199 | A fetch of at most `limit` Inbox rows puts all their ids into the window |
| `FolderCacheRefinement.WritesStayValid` | src/cache.rs:1584-1638 | From a valid store every write path writes a valid store; a replacement that cannot leaves the store unwritten |
| `BodyStore.BodyCache.ReconcileManifestEntries` | src/cache.rs:1488-1528 | The entries kept are the acceptable ones with a file, first of their id, with fresh sizes; the files without an entry go |
| `BodyStore.BodyCache.EvictOverBudget` | src/cache.rs:1457-1486 | The eviction loop removes the files of exactly the swept entries, in order |
| `BodyStore.BodyCache.SaveBody` | src/cache.rs:1353-1389 | A save performs its row of writes in order, or reports a blank account or a malformed id |
| `BodyStore.BodyCache.LoadBody` | src/cache.rs:1303-1351 | A load serves a record of that account and message, touches its entry, and removes what cannot be served |
| `BodyStoreGuarantees.LoadServesLastSave` | src/cache.rs:1303-1401 | After any run of saves, loads, clears and cleanups cut off anywhere, a load is a miss or the body most recently written for that message, and by that account |
| `BodyStoreGuarantees.SaveThenLoad` | src/cache.rs:1303-1389 | A completed save is followed by a hit under any spelling of the account, whatever the budget and the disk were |
| `BodyStoreGuarantees.ManifestMatchesDirectory` | src/cache.rs:1488-1528 | After a reconciliation the manifest has distinct ids and true sizes, and names exactly the `.json` files on disk |
| `BodyStoreGuarantees.EvictionIsLeastRecentAndMinimal` | src/cache.rs:1457-1486 | Eviction takes the shortest least-recently-used prefix of the unprotected bodies that meets the budget, or all of them; sizes summing past 64 bits are seen saturated |
| `BodyUpkeep.EvictedAreLeastRecent` | src/cache.rs:1457-1486 | Each body evicted was used before every unprotected one still listed, by the entries' own times, ties by file name |
| `BodyUpkeep.SaveEvictsLeastRecent` | src/cache.rs:1353-1389 | A save evicts in that order, its own body apart |
| `BodyUpkeep.KeptExactly` | src/cache.rs:1488-1528 | Reconciling keeps a message if and only if the manifest names a body of the account and, where given, the retained ids, on disk under the message's own file name; its stamp is one the manifest had |
| `BodyUpkeep.FilesLeft` | src/cache.rs:1488-1528 | After a reconciliation exactly the manifest, the listed bodies and the files that are neither bodies nor temporaries are left, each as it was |
| `BodyUpkeep.ForeignManifestSweeps` | src/cache.rs:1488-1528 | Without a manifest, or with one of another version, a reconciliation sweeps every body and writes an empty manifest |
| `BodyUpkeep.SaveStamps` | src/cache.rs:1353-1389 | After a completed save the message's one entry carries the account, file, size and time of the save |
| `BodyUpkeep.LoadStamps` | src/cache.rs:1303-1351 | A hit stamps the entry it serves with the time of the load and leaves every other entry as it was |
| `BodyUpkeep.HitExactly` | src/cache.rs:1303-1351 | A load is a hit if and only if no cleanup is pending and the manifest claims a body whose file is a readable record of the current version, that account and that message; it serves that record's body |
| `BodyUpkeep.BadRecordGoes` | src/cache.rs:1303-1351 | A listed record that cannot be served loses its entry and its file |
| `BodyUpkeep.LoadGates` | src/cache.rs:1303-1320 | While a cleanup is pending no load serves or writes; a blank account and an id that is no Gmail id are told apart |
| `BodyUpkeep.ClearedIsEmpty` | src/cache.rs:1391-1401 | Clearing and the cleanup leave no body and no entry, the cleanup no marker either |
| `BodyRetention.SavedStaysServed` | src/cache.rs:1303-1389 | Over every run of saves, loads and reconciliations of one account in which the bodies last saved fit the budget together, each of them is a hit with the body last saved |
| `AccountSwitch.CleanupProgress` | src/cache.rs:1266-1301 | After each stage of the cleanup the marker stands until indexes, bodies and attachments are gone |
| `AccountSwitch.SwitchIsCrashSafe` | src/cache.rs:1227-1310 | Once the marker is durable, through any operations finished, cut off or resumed, no mailbox or body load shows the previous account's mail, the marker goes only after all its data, and so does the first index of another account |
| `AccountSwitch.SwitchBegins` | src/cache.rs:1214-1260 | A switch from a readable index has either not begun or made the marker durable, and when it ends nothing of the previous account is left |
| `AccountSwitch.ResumeFinishes` | src/cache.rs:1262-1301 | Preparing any account behind the marker finishes the cleanup: no data of anyone, no index and no marker is left |
| `AccountSwitch.SameAccountKeepsData` | src/cache.rs:1227-1244 | With no cleanup pending an account finds its own data as it left them, and a replacement keeps every attachment and its own bodies |
| `AccountSwitch.SavesEnd` | src/cache.rs:1353-1389 | A body save leaves the bodies of its own account alone; an attachment save adds to what is there |
| `AccountSwitch.ClearEnds` | src/cache.rs:1391-1401 | Clearing the downloads takes bodies and attachments and leaves the mailbox indexes |
| `AccountSwitch.DamagedIndexKeepsAttachments` | src/cache.rs:1137-1217 | After a completed replacement of an unmarked store the previous account's attachments remain if and only if its index could not be read or was the new account's |
| `AccountSwitch.UnreadableIndexExample` | src/cache.rs:1137-1217 | A disk with a damaged index on which the previous account's attachments outlive the replacement |
| `RowRemoval.RemovesOne` | src/state.rs:4355-4394 | Among distinct ids a removal takes at most the one ineligible row, at its own place |
| `RowRemoval.ReverseRollbackIsExact` | src/state.rs:4355-4420 | Removing any sequence of messages and putting them back in reverse restores the exact list |
| `RowRemoval.RollbackInAnyOrder` | src/state.rs:4355-4420 | On one list, under any interleaving of removals and refusals no row is lost or doubled, the rows never taken keep their order, and once all are refused the original rows are back |
| `RowRemoval.RestoreTwice` | src/state.rs:4396-4420 | Putting rows back twice is putting them back once |
| `MutationReducer.RemoveRows` | src/state.rs:4370-4392 | The index-walking removal loop yields the kept rows and the removed ones with the places they had |
| `MutationReducer.Reducer.MutateSelected` | src/state.rs:3748-3884 | A permitted change with nothing pending for its attribute is shown, recorded and sent under a new request id; anything else changes nothing |
| `IssuedChanges.SelectedExact` | src/state.rs:3344-3357 | The message acted on is the first search result of the selected id, or else its first row in the list |
| `IssuedChanges.ChangeIsSent` | src/state.rs:3748-3884 | A change is sent if and only if the session is ready with account and list, the message allows it and its attribute has nothing pending; the one command names the message, its place and the opposite of what the row shows, and is recorded for the open folder |
| `IssuedChanges.ChangeIsShown` | src/state.rs:3803-3884 | Both lists show the change sent at once: a move takes the message's rows out, any other change writes its attribute alone, and other messages' rows stay |
| `MutationReducer.Reducer.FinishMutation` | src/state.rs:4027-4155 | An answer of the current generation settles the one pending change it names, or the inverse awaited; anything else changes nothing |
| `IssuedChanges.QuietAnswers` | src/state.rs:4027-4155 | An outdated or unknown answer changes nothing; a confirmation, or an uncertain failure, that Undo is not about only takes the change off the pending ones |
| `MutationReducer.Reducer.UndoMessageOperation` | src/state.rs:4209-4250 | Undo restores rows and waits, sends the inverse, or does nothing, by the token's phase |
| `MutationReducer.Reducer.DispatchUndo` | src/state.rs:4252-4296 | The inverse is sent under a new request id and the rows are back, or the token is dropped |
| `IssuedChanges.InverseExact` | src/state.rs:4280-4296 | There is an inverse if and only if the change was a move and the catalog has Inbox; it names that Inbox, and the mailbox a trashed message went to |
| `MutationReducer.Reducer.RestoreRemovedRows` | src/state.rs:4396-4420 | Each removed row returns to its place in its own list unless its message is shown there |
| `MutationReducer.Reducer.RestoreReconciled` | src/state.rs:4422-4475 | Rows take on what Gmail reports and stay only where they belong |
| `LabelLists.AddedLabel` | src/model.rs:548-566 | Adding a label leaves an ordered list without repeats that holds it |
| `LabelLists.RefusedAdditionExact` | src/model.rs:552-559 | Adding under the cap and removing again restores a label list if and only if there was room, or it was exactly full and the new label is the greatest |
| `OverlayInvariant.AlwaysOverlaid` | src/state.rs:3803-3844 | In every run of read, starred and label changes and definite or stale answers, every attribute of every row in both lists is the server's, overlaid by the one change pending for it |
| `OverlayInvariant.AllRefusedRestores` | src/state.rs:4107-4124 | If every change of such a run was refused, both lists are exactly the original ones |
| `OverlayInvariant.CopiesAgree` | src/state.rs:4335-4350 | Copies of a message show the same labels throughout |
| `LabelCap.RefusedAdditionOnReducer` | src/state.rs:4500-4525 | Adding a label and having it refused leaves both lists as they were if and only if there was room for it, or the list was full to the cap and the new label sorts last |
| `LabelCap.FullListLosesLabel` | src/model.rs:552-559 | A message with 256 labels that does not get its labels back |
| `UndoMachine.UndoAlwaysSafe` | src/state.rs:4045-4097 | In every reachable state a waiting token names its live pending change of the same message and request; inverses were sent only for confirmed changes, at most once each; request ids were never reused |
| `UndoMachine.InverseFollowsConfirmation` | src/state.rs:4209-4296 | In every run each inverse sent is that of the held token, for a change sent for the same message, confirmed by then and not undone before |
| `UndoMachine.AnswersAreFinal` | src/state.rs:4027-4055 | What Gmail answered to a change is never replaced by a later answer |
| `UndoMachine.InverseSettlesLater` | src/state.rs:4157-4200 | While an inverse is under way other changes, answers and stale answers leave its token waiting; its own answer then ends it, touching neither list when confirmed, and disturbing nothing else that happened meanwhile |
| `RetiredChanges.ForgottenStayForgotten` | src/state.rs:1031-1038 | Once the worker is lost, the user leaves or another account appears, no answer to a change sent before ever does anything again, through every further run |
| `RetiredChanges.OutdatedStayOutdated` | src/state.rs:4027-4035 | Once the generation is bumped, no answer of an earlier generation ever does anything, through every further run |
| `MutationRollback.RefusedInReverse` | src/state.rs:4107-4124 | Any run of archives and trashes refused in reverse leaves both lists and the pending table as they were, without an Undo token |
| `AnyOrderRefusal.RefusedInAnyOrder` | src/state.rs:4107-4124 | Any run of archives and trashes with refusals in any order, stale ones included: in both lists no row is lost or doubled, a missing one is held back by a pending change, the rows no move took keep their order, and once nothing is pending the original rows are back |
| `MutationRollback.UndoBeforeAnswer` | src/state.rs:4086-4110 | With Undo pressed early, a refusal leaves everything as before the change, and an uncertain answer leaves the message away |
| `MutationRollback.UndoEarlyOrLate` | src/state.rs:4209-4278 | Pressing Undo before or after the confirmation sends the same inverse and leaves the same state |
| `MutationRollback.UndoRoundTrip` | src/state.rs:4027-4278 | A move, its confirmation, Undo and its confirmation end in the state before the move; a failed Undo leaves the message away |
| `MutationRollback.TrashInverseRestores` | src/state.rs:4280-4296 | The inverse of a trash names the catalog's Inbox, the mailbox it was moved to, and exactly the Inbox membership and labels the message had |
| `MutationRollback.ReconciledIsTruthful` | src/state.rs:4422-4475 | After a reconciliation both lists carry what a reconciliation makes of the message's rows, and no row stands where it does not belong |
| `RowAttributes.ReportIsShown` | src/state.rs:4422-4475 | After Gmail's report both lists show it attribute by attribute: the message's rows carry the five reported attributes and are otherwise the rows they were, rows stand exactly where Gmail lists them, other rows that belong stay, and a message gone is out of both lists |
| `ScreenAndDisk.ScreenMeetsDisk` | src/cache.rs:580-634 | In every run of read, starred and label changes, however their answers are ordered, the cached view holds what Gmail holds, and the list on screen is that view overlaid by the pending changes, equal to it whenever nothing is pending |
| `ScreenAndDisk.SameIds` | src/cache.rs:586-633 | Archive and Trash keep the same messages on screen as in the cached view of every folder, and equal rows where the folder loses the message |
| `ScreenAndDisk.ArchiveCycle` | src/state.rs:3775-3780 | A message archived from a list other than Inbox and brought back by Undo: the cached view and the list on screen are again exactly what they were, by the guard the reducer applies |
| `ScreenAndDisk.TrashLeavesViews` | src/cache.rs:586-633 | A trashed message leaves every cached view but Trash, and its confirmed inverse does not bring it back |
| `ScreenAndDisk.ArchiveUndoneInStore` | src/cache.rs:580-634 | After an archive and its confirmed inverse every view of the record stays in place; outside Inbox a row is as it was if and only if it was in Inbox and not in Trash, or is another message's |
| `RequestLanes.RunTidy` | src/state.rs:3413-3695 | In every run a running search carries the current generation, and whatever is awaited is the newest of its lane |
| `RequestLanes.OlderAnswersChangeNothing` | src/state.rs:3512-3695 | In every run an answer to any but the newest request of its lane changes nothing at all |
| `RequestLanes.AnswerableStep` | src/state.rs:2469-2487 | The folder on screen stays the one awaited, whose answers are taken, if and only if the event is no stored Inbox arriving while another folder is awaited |
| `RequestLanes.AwaitedIsAnswered` | src/state.rs:3575-3695 | In every run without such an arrival, the answer to the request sent last for the awaited folder is taken: a fresh snapshot is shown, and it or a refusal ends the loading |
| `RequestLanes.CacheStrandsFolder` | src/state.rs:2469-2487 | A folder opened before the stored Inbox arrives stays awaited and loading through every further run until another folder, a sync, a disconnect or a new account frees it; its own answers change nothing |
| `RequestLanes.ShownIsExpected` | src/state.rs:3575-3695 | After a folder is opened, through any answers, searching and rewrites of the search results, the list shows exactly what its own answers bring, up to the first fresh one or the refusal |
| `RequestLanes.FreshSnapshotStays` | src/state.rs:3627-3651 | Once the fresh snapshot has arrived it stays, whatever cached, repeated or older answers and searches follow |
| `RequestLanes.FoundIsExpected` | src/state.rs:3437-3574 | After a search is submitted, through any answers, cache loads and finished syncs of the account and rewrites of the list, it shows exactly what the first answer to its own request brings |
| `RequestLanes.FirstFindingsStay` | src/state.rs:3512-3542 | The first answer to the newest search is shown, and stays through the same events |
| `RequestLanes.AbandonedSearchNeverPublishes` | src/state.rs:3512-3574 | A search that no longer runs never runs again, and its answers change nothing |
| `RequestLanes.SearchIsAbandoned` | src/state.rs:3413-3574 | A search running at any point of a run, once edited, cancelled, resubmitted or left behind, never publishes: through every further run each of its answers changes nothing |
| `LaneRules.QueryExact` | src/gmail.rs:399-405 | The query searched for is the text typed without the white space around it, if and only if that is not empty, at most 2048 bytes and free of controls |
| `LaneRules.SearchIsSent` | src/state.rs:3437-3492 | A search is sent if and only if the query is valid, the session ready and All Mail offered: the trimmed text under the next number and a new generation, after the running one was cancelled; otherwise nothing happens |
| `LaneRules.RetryExact` | src/state.rs:3505-3511 | Retrying a failed search submits its own query again, whatever the field holds by then |
| `LaneRules.EditExact` | src/state.rs:3413-3436 | Editing the query ends the search and cancels it if it runs; the same text changes nothing |
| `LaneRules.FolderIsFetched` | src/state.rs:3575-3625 | A folder is fetched if and only if account, list and catalog have it: under the next number and generation, awaited from then on, with an empty list if it is another folder |
| `LaneRules.FolderAnswersExact` | src/state.rs:3627-3695 | A cached answer is shown with the fresh one still awaited, the fresh one ends the loading in a ready session, and a refusal ends it, no longer ready when Gmail is out of reach |
| `LaneRules.TurnsClearScreen` | src/state.rs:1355-1390 | Leaving, disconnecting and another account's identity clear the screen and outdate every folder request |
| `LaneRules.SyncTurns` | src/state.rs:2469-2541 | The stored Inbox opens Inbox, a finished sync shows its snapshot in a ready session, and a sync that starts ends the search and outdates the folder awaited |
| `LaneRules.TurnsForgetChanges` | src/state.rs:1355-1380 | Leaving, another identity, a disconnect and the worker's end forget the pending changes and the Undo token; no other turn of the lanes touches them |
| `LaneRules.BackgroundExact` | src/state.rs:2160-2173 | A background snapshot is shown if and only if Inbox is open without search or reader; otherwise it changes nothing |
| `LaneRules.LimitExact` | src/state.rs:4537-4552 | Another offered limit cuts the list on screen to its first rows; any other limit changes nothing |
| `RowMovement.TurnMoved` | src/state.rs:4027-4475 | Through every change, answer and Undo each row of either list stood there before, or is one the event puts back whose message was not shown; of each such message one row is there |
| `RowPlacement.PlacementStep` | src/state.rs:4396-4420 | On lanes and reducer together, an event keeps the rows those of the open folder if and only if it neither finishes a sync of the account, with mail, over another folder than Inbox nor puts back a row of another folder whose message is not shown |
| `RowPlacement.OnlyUndoStrays` | src/state.rs:4098-4140 | Rows of another folder come back only through Undo, the confirmation it waited for, or Gmail's report on it; every other refusal and report puts rows back where they were taken |
| `RowPlacement.RowsMatchFolder` | src/state.rs:3575-3651 | In every run without such an event the rows shown are those of the folder that is open |
| `RowPlacement.UndoMisplacesArchived` | src/state.rs:4209-4278 | Archiving a message of the Inbox list, opening any other folder and pressing Undo ends with the Inbox row in that folder's list |
| `RowPlacement.RefreshOverFolder` | src/worker.rs:4265-4385 | A refresh begun over another folder ends with rows of the open folder if and only if the stored Inbox was brought first, which opens Inbox, or there is no mail |
| `RowPlacement.FolderOpenedDuringRefresh` | src/state.rs:2469-2541 | A folder opened after the stored Inbox was brought ends with the refresh's Inbox rows under it, if there are any |
| `FindingsPlacement.FindingsStep` | src/state.rs:4409-4418 | An event keeps the results on screen those of the answered search if and only if it puts back no row taken from results of a message this search did not find |
| `FindingsPlacement.ResultsAreAnswered` | src/state.rs:4409-4418 | In every run in which no such row is put back, the results on screen are of messages the answered search found |
| `FindingsPlacement.OneSearchStays` | src/state.rs:4027-4475 | In every run without another search's answer, whatever is changed, refused, undone or synced, the results stay of messages the search found |
| `FindingsPlacement.RefusalIntrudes` | src/state.rs:4098-4124 | Trashing a result, having another search answered without it, and a refusal end with the old row among the new results |
| `BackgroundSync.AppState.BackgroundSyncComplete` | src/state.rs:2137-2183 | Only the answer in flight for the current account counts; it rearms and emits the new ids once |
| `BackgroundSync.NeverDies` | src/state.rs:2048-2206 | In every run, unless paused a timer of the current generation is armed or a request is in flight, when paused none is; a request in flight belongs to the current account; at most 500 ids are remembered |
| `BackgroundSync.DelaysFollowBackoff` | src/state.rs:2048-2065 | Every delay armed is between 60 and 900 seconds, and the one after the f-th consecutive retryable failure is min(60 * 2^min(f, 4), 900) |
| `BackgroundSync.SingleFlight` | src/state.rs:2097-2133 | A request is sent only when none is in flight, under a number never used before, for the account of the moment |
| `Polling.PollExactly` | src/state.rs:2097-2133 | In every run a timer sends a request, under a new number for the account and in flight from then on, if and only if it is current, the scheduler runs with none in flight, the session is ready with account and mailbox, and no operation or folder request is active; a current one that cannot poll rearms at 60 seconds and leaves its tick pending |
| `Polling.CompletionExactly` | src/state.rs:2137-2183 | The answer in flight ends it, forgets failures, rearms at 60 seconds and notifies of exactly the ids not announced before, while fewer than 500 are remembered |
| `Polling.FailureExactly` | src/state.rs:2184-2206 | A failure that is not worth repeating pauses without a timer; any other rearms after 120, 240, 480 and then 900 seconds |
| `Polling.IdentityExactly` | src/state.rs:2404-2433 | Another account starts paused with a clean slate; the same one, however spelled, is left alone |
| `Polling.StartExactly` | src/state.rs:2516-2560 | A finished sync unpauses the scheduler with the first poll in 60 seconds; announced ids stay so for the same account only |
| `Polling.StopExactly` | src/state.rs:2067-2083 | Stopping ends the request in flight and the pending tick, outdates every timer and cancels the armed one if anything was going on |
| `BackgroundSync.OldAnswersChangeNothing` | src/state.rs:2135-2206 | Once a request is answered, cancelled or overtaken, its answers change nothing through every further run |
| `BackgroundSync.OvertakenRequests` | src/state.rs:2135-2206 | In every run the answers to each request sent and no longer in flight change nothing, from then on |
| `BackgroundSync.OldTimersChangeNothing` | src/state.rs:2108-2133 | A timer outdated once fires without effect through every further run |
| `BackgroundSync.ForeignAnswersChangeNothing` | src/state.rs:2137-2150 | In every run an answer naming another account than its request was sent for changes nothing |
| `BackgroundSync.EmittedBounded` | src/state.rs:2150-2158 | The set of emitted ids never exceeds 500 |

## Left out

- Network, TLS, the IMAP and SMTP sessions, OAuth and the Secret Service: replies are arbitrary inputs.
- The GTK and WebKit interface, logging, packaging and CSS.
- Parsing of messages, HTML sanitising and JSON: stored records are typed values, and a file too large or
  unparsable is an unreadable file.
- File permissions, symlink checks, temporary-file naming and fsync: one atomic write, rename or removal is one step.
- Draft storage, recipients, subject trimming and send-as lists: they would only add easy members.
- Request and generation counters wrap in the source at 64 bits; here they are unbounded.
- Widths of UIDs, sequence numbers and child indices: they are natural numbers, which 32-bit inputs never overflow.
- The user's selection, the list filter and the reader pane: the selected message is an input of each change.
- Changes made from the account-scoped inbox: in `UndoMachine` they only take request ids.
- `metadata.loaded_count` of the list on screen: it is the length of the list.
- Feedback texts and display revisions.
- Manifests beyond the size limit, and failures of the legacy-file removals that the source ignores: in
  `AccountSwitch` any failing step stops the operation.
- The truncation of attachment names and mailbox display names by `bounded`.
- `OverlayInvariant.AlwaysOverlaid`: does not cover reconciled or uncertain answers, because a reconciled answer
  overwrites all attributes of a message at once and an uncertain one leaves the server's value unknown.
- `OverlayInvariant.AllRefusedRestores`: does not cover label additions to lists of 256 labels or more, where it is
  false; `LabelCap.RefusedAdditionOnReducer` gives the exact condition.
- `BodyRetention.SavedStaysServed`: does not cover crashes, damage, clears and other accounts' operations, after which
  the source may drop bodies.
- `RowRemoval.RollbackInAnyOrder`: does not promise the exact order of the rows put back, because the source does not.
- The background sync's snapshot: in `BackgroundSync` what it publishes is left to the environment; `RowPlacement`
  shows it under the source's condition.
- `RequestLanes.ShownIsExpected`: does not cover cache loads, finished syncs and rewrites of the list, each of which
  replaces what is shown by design, nor the projection of a folder answer into the account mailboxes.
- `RequestLanes.FreshSnapshotStays`: does not cover those events either, for the same reason.
- `RequestLanes.FoundIsExpected`: does not cover rewrites of the results by changes and their answers;
  `FindingsPlacement.FindingsStep` says whose rows those leave.
- `RequestLanes.FirstFindingsStay`: does not cover those rewrites either, for the same reason.
- `RowPlacement.PlacementStep`: takes it from the worker that a snapshot holds rows of the folder it was made for.
- Settling of every pending change: clearing downloaded bodies bumps the generation, and older answers are dropped.
