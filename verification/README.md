# DP deployment platform: verified model

DP is a single-process deployment platform: a Go server with one SQLite connection, an archive
store on disk, and target hosts reached over SSH and SFTP. This project models its stateful
cores in Dafny and proves what they keep over whole runs.

Each module follows one component. State lives in classes with the fields the program updates;
their methods are proved against a step function or relation on plain values, and the lemmas
state what those steps keep over every run, interleaving or cut.

| module | what it models |
|---|---|
| `Operations` | lifecycle operations: the in-memory `active` map, operation rows, transfer, retention, restart, interleaved step by step |
| `RemoteMarkers` | the two markers of remote install and reset, cut at any call |
| `Ownership` | ownership transfer, tag dictionaries and links |
| `Hub` | realtime subscriptions with bounded channels |
| `LoginThrottle` | login backoff and its gate |
| `Keyset`, `Paging` | keyset queries, paging clients, the CSV export, retention deletes |
| `PackageVersions` | immutable package versions, the current pointer, pruning |
| `ImportExport` | export and import of environments with tags |
| `ConfigRevisions` | config revisions and the file on the host |
| `Communications` | threads, receipts, unread counts, audiences |
| `Paths`, `Inspect`, `Archives` | path cleaning, the streaming archive inspection, and what it accepts said of the entries alone |
| `ShellQuote` | command lines and the words a POSIX shell reads from them |
| `EventReplay` | the operation log, polling and reconnection |
| `Health` | alert debouncing and notifications |

## Assumptions

- Transactions are serial, because there is one open connection; each is one atomic step.
- Store writes succeed unless a step has a parameter for their failure.
- Ids returned by `NewID` are new and 36 characters long; the clock does not step back.
- SQLite's NOCASE folds the ASCII letters and nothing else.
- Times are the stored texts where the program sorts by them: the stored format drops trailing
  zeros, so text order is not chronological order, and every ordering claim is about text.
- Hashes do not collide.
- Functions of foreign code (hashing, decryption, JSON and YAML, Go's `TrimSpace` and `ToLower`)
  are parameters, with the laws they need stated as preconditions.

## Where the code does less than one would expect

- Not every export can be imported again. `ImportExport.ExportIsAccepted` gives the exact
  condition. Besides a master key that changed, it fails for an account without environments
  (`ImportExport.EmptyExportIsRefused`), for an environment whose package was deleted while it was
  not installed (`ImportExport.OrphanDoesNotReturn`), and for two tags that differ only in the case of
  a non-ASCII letter, because the database folds ASCII and the import Unicode
  (`ImportExport.AccentedTagsDoNotReturn`).
- A config write whose reply is lost after it took effect is not compensated, and saving the old
  content again is taken for no change (`ConfigRevisions.LostReplyIsNotCompensated`). A config
  edited between a lost install record and the install that heals it never reaches the host
  (`ConfigRevisions.EditBeforeHealedInstall`). `ConfigRevisions.StepAgreesIff` lists all such steps.
- Changing the service type of an environment that is not installed drops its config row and
  keeps its revisions, so a later config names no revision although there are some
  (`ConfigRevisions.RetypedInstallNamesNoRevision`).
- Marker and row of an install can end up contradicting each other: when a marker is seen but not
  read (`RemoteMarkers.UnreadMarkerMisleads`), and when an install starts on a row that still says
  installed (`RemoteMarkers.StaleRowMisleads`, `RemoteMarkers.ForeignMarkerMisleads`), which is
  possible because the flag is read before the lock. `RemoteMarkers.InstallIsTruthfulIff` gives the
  check that excludes these cases and nothing else.
- A reset whose look for stop.sh fails for any reason goes on without stopping the service
  (`RemoteMarkers.Site.Reset`).
- Changed unread counts are not always announced: nobody is told when the committed result cannot
  be read back (`Communications.FailedRereadTellsNobody`), no administrator when the accounts
  cannot be listed (`Communications.FailedListingTellsNoAdmin`), and not one who was disabled between
  commit and listing (`Communications.DisabledAdminIsNotTold`).
  `Communications.ChangedAccountsAreToldIff` says that these are all.
- With several files of one path in an archive the last one decides (`Inspect.LastFilesDecide`), so
  the verdict can depend on the order of entries; `Inspect.OrderMattersIff` says exactly when.
- A log append that stores only part of a line loses the next event as well, because the two end
  up on one line (`EventReplay.TornLineIsSpoilt`).
- A log line of 2 MiB, which JSON escaping can make of a shorter output line, stops every later
  replay of that operation (`EventReplay.LongLineStopsReplay`).
- The terminal write of an operation is logged and ignored when it fails; if it could fail, two
  live rows would be reachable (`Operations.TerminalWriteIsNeeded`).
- An archive that contains the installed marker blocks its own installation
  (`RemoteMarkers.ResetThenInstallRecovers`).

## Model

| member | source | states |
|---|---|---|
| Operations.RunsAreExclusive | internal/operation/manager.go:79-149 | In every state reached by any interleaving of starts, goroutines, releases, transfers, retention and crash-plus-restart, an environment has at most one queued or running row, `active` names it, and its owner is the environment's current owner |
| Operations.StepKeepsInv | internal/operation/manager.go:156-332 | Each atomic step keeps the protocol invariant: slots name their worker, a row is live exactly between its insert and its terminal write, live rows carry the current owner |
| Operations.RunKeepsInv | internal/store/store.go:670-705 | The invariant holds after every run of enabled steps |
| Operations.TerminalRowsAreFinal | internal/operation/manager.go:313-332 | A terminal row never changes again, in any continuation of any run; retention may only delete it |
| Operations.VerdictsAreEarned | internal/operation/manager.go:313-332 | In every run the outcome of a finished operation is the verdict its own goroutine wrote, or the interruption by a restart; nothing else ever makes an operation succeed or fail |
| Operations.StatusChanges | internal/store/store.go:670-785 | Every way a row can change in one step: queued only by its insert, running and finished only by its own worker, interrupted only and always by a restart, deleted only when terminal; what it is about never changes |
| Operations.NothingLiveWithoutWorkers | internal/operation/manager.go:152-154 | When every goroutine is gone `active` is empty and no row is queued or running |
| Operations.WorkersDrain | internal/operation/manager.go:366-370 | From every reachable state the workers can all finish, in at most two further steps each |
| Operations.TransferSparesLiveOperations | internal/store/admin.go:265-271 | A transfer that passes its in-flight check moves no environment with a live operation |
| Operations.StaleStartIsRefused | internal/store/store.go:670-705 | A start that read the environment before a transfer and inserts after it is refused and releases its slot |
| Operations.OwnerCheckIsNeeded | internal/store/store.go:676-687 | Without the owner comparison inside CreateOperation a reachable interleaving breaks exclusiveness |
| Operations.TerminalWriteIsNeeded | internal/operation/manager.go:325-327 | If the logged-and-ignored terminal write could be lost, two live rows of one environment would be reachable |
| Operations.Server.Observe | internal/operation/manager.go:85-108 | The pre-lock checks: which error for which state of the environment and package |
| Operations.Server.Reserve | internal/operation/manager.go:110-117 | Takes the slot of a free environment, or reports an operation in progress and changes nothing |
| Operations.Server.Create | internal/store/store.go:670-705 | Inserts the queued row iff the owner is unchanged; otherwise gives the slot back; is the Create step |
| Operations.Server.Release | internal/operation/manager.go:366-370 | Frees exactly the worker's slot |
| Operations.Server.Progress | internal/operation/manager.go:292-298 | The row is running at that stage if the write is stored, and nothing else changes; is the Progress step |
| Operations.Server.Finish | internal/operation/manager.go:313-332 | The row has the verdict's status, stage and code, and nothing else changes; is the Finish step |
| Operations.Server.Reopen | internal/store/store.go:776-785 | Every queued or running row becomes interrupted, stage `interrupted`, code SERVER_RESTARTED; every other row stays; `active` is empty; is the Restart step |
| Operations.Server.Transfer | internal/store/admin.go:265-271 | Goes through iff no operation of the source is in flight, and moves exactly the source's environments |
| Operations.Server.DeleteTerminalOperationsBefore | internal/store/admin.go:83-119 | Deletes only terminal rows whose stamp lies before the bound, the oldest first, at most the limit, and all of them when fewer than the limit were found |
| Operations.Server.Start | internal/operation/manager.go:79-149 | A whole start call: succeeds iff admissible and not active, leaves exactly one new queued row and slot, keeps the invariant |
| Operations.Server.Run | internal/operation/manager.go:156-290 | A whole goroutine: ends with the given verdict in its row, its slot free, nothing else changed, invariant kept |
| RemoteMarkers.ResetThenInstallRecovers | internal/remote/executor.go:290-344 | From any directory and row whatever, one uncut reset and one uncut install end installed and in agreement iff the archive brings no installed marker of its own |
| RemoteMarkers.LostWriteIsHealed | internal/operation/manager.go:217-262 | A remote success whose table write was lost is healed from the marker by the next install, which does not touch the host |
| RemoteMarkers.LostResetIsHealed | internal/operation/manager.go:267-277 | A reset whose table write was lost is completed by the next uncut reset |
| RemoteMarkers.InstallAloneProceedsIff | internal/remote/executor.go:181-204 | Without a reset an install proceeds iff the directory is empty or holds an installing marker, and otherwise changes nothing |
| RemoteMarkers.HistoriesAreSound | internal/remote/executor.go:139-252 | After any history of installs of unmarked archives and resets, each cut anywhere, the marker names hold what DP writes under them |
| RemoteMarkers.InstallIsTruthfulIff | internal/remote/executor.go:160-252 | For every archive: however an install is cut, marker and row do not contradict each other afterwards, iff a marker found is the one it would write and, in a directory free for use, a row that says installed is that of the marker it would leave |
| RemoteMarkers.ReadInstallIsTruthfulIff | internal/remote/executor.go:165-179 | The same with the read of the marker not cut: then a marker found need only hold both values |
| RemoteMarkers.CheckedHistoriesAreTruthful | internal/operation/manager.go:195-277 | Over any history with any archives, wherever its calls are cut, marker and row disagree at most by one of them missing, if every attempt passes that check or reads a complete marker |
| RemoteMarkers.UnreadMarkerMisleads | internal/operation/manager.go:217-252 | An installed marker that is seen but not read makes the row record the wrong version |
| RemoteMarkers.StaleRowMisleads | internal/operation/manager.go:200-262 | An install begun on a row that still says installed, whose own table write is lost, leaves its marker beside the earlier row |
| RemoteMarkers.ForeignMarkerMisleads | internal/remote/executor.go:206-252 | The same when the archive brings an installed marker of its own: it is left beside the row and the install fails |
| RemoteMarkers.IllegibleMarkerMisleads | internal/operation/manager.go:217-252 | A marker without a sha or port is recorded with the caller's value in its place |
| RemoteMarkers.ResetIsTruthful | internal/remote/executor.go:290-344 | A reset never makes marker and row contradict each other, wherever it is cut |
| RemoteMarkers.Campaign | internal/remote/executor.go:185-223 | Over any sequence of cut jobs, with any archives, nothing is extracted unless DP had put an installing marker into an empty directory or a reset had |
| RemoteMarkers.Site.Install | internal/remote/executor.go:139-252 | Executor.Install against its effect relation for every cut and every archive: marked installations and unknown directories are never touched; a success, and any installed marker of DP that appears, means package and config were in place and then install.sh or start.sh ran to a successful end |
| RemoteMarkers.Site.Claim | internal/remote/executor.go:160-204 | When the directory may be used, and what each refusal leaves behind |
| RemoteMarkers.Site.Deploy | internal/remote/executor.go:206-252 | Upload, extraction, config, script and markers: what success and failure at each call leave; no marker without a successful script |
| RemoteMarkers.Site.Prepare | internal/remote/executor.go:206-241 | The script runs after extraction and config, in a directory that holds both; a failed script fails the install |
| RemoteMarkers.Site.StopService | internal/remote/executor.go:309-321 | stop.sh runs iff it is asked for and found; a look for it that is cut counts as not found |
| RemoteMarkers.Site.Reset | internal/remote/executor.go:290-344 | Executor.ResetInstallation against its effect relation for every cut: nothing changes before a stop.sh that is there ran successfully, unless the look for it was cut; no marker of an installation survives success, payload stays |
| RemoteMarkers.Site.WriteJson | internal/remote/executor.go:546-567 | Creates the marker or leaves an existing one as it is; succeeds uncut iff the name was free |
| RemoteMarkers.Site.WriteConfig | internal/remote/executor.go:390-407 | Replaces the config atomically; touches only the path and its temporary file |
| RemoteMarkers.Site.RunInstall | internal/operation/manager.go:195-262 | The install branch on host and row together, for every cut: a row is set to installed only after the script succeeded and the config row is stored, or from a marker found |
| RemoteMarkers.Site.RunReset | internal/operation/manager.go:263-277 | The reset branch on host and row together, for every cut: the row changes only after stop.sh |
| Ownership.TransferKeepsConsistent | internal/store/admin.go:178-249 | A transfer that passes its checks keeps uniqueness of (owner,type), (owner,ip,type), (owner,type,sha) and of live tag classes, packages for versions, and sound tag links |
| Ownership.DictionariesAfterTransfer | internal/store/admin.go:216-240 | The target's dictionary grows by exactly the classes it lacked; every other dictionary, the source's included, is untouched |
| Ownership.TransferConservesCounts | internal/store/admin.go:203-216 | Package and environment counts move exactly from source to target |
| Ownership.NothingMovesAmiss | internal/store/admin.go:251-284 | Nothing an accepted transfer moves goes to a disabled account or was owned by one with an operation in flight |
| Ownership.LoopTransfers | internal/store/admin.go:185-240 | The loop over link rows leaves every moved environment its NOCASE classes, one live target tag for each |
| Ownership.Store.TransferResources | internal/store/admin.go:178-249 | Ok iff two different accounts exist, the target is enabled, the source has no operation in flight, and they share no package type and no (ip, type); then all of the above relation and the schema hold and the counts are returned; otherwise the stated error and no change |
| Ownership.Store.ValidateTransfer | internal/store/admin.go:251-284 | The same condition, and which refusal in which case |
| Ownership.Store.Relabel | internal/store/admin.go:216-240 | The relabelling loop: faithful image of source tags, links replaced one by one, new tags only for missing classes |
| Ownership.Store.TargetTag | internal/store/admin.go:218-230 | Finds or adds the target's live tag of the class |
| Ownership.Store.UpdateOwners | internal/store/admin.go:203-216 | Every row of the source and no other changes owner; row counts |
| Ownership.Store.CreateResourceTag | internal/store/tags.go:62-72 | Refuses a class the owner already has; otherwise adds one tag; keeps the schema |
| Ownership.Store.UpdateResourceTag | internal/store/tags.go:74-86 | Renames unless missing, deleted or clashing with another live tag; keeps the schema |
| Ownership.Store.DeleteResourceTag | internal/store/tags.go:88-106 | Soft-deletes once and unlinks the tag from every environment and nothing else |
| Ownership.Store.ReplaceEnvironmentTags | internal/store/tags.go:131-178 | Accepts iff at most 20 distinct live tags of the owner; then the environment has exactly those and no other changed |
| Ownership.MatchesAllTags | internal/store/tags.go:238-249 | The counting loop answers whether every wanted tag is there |
| Ownership.FilterEnvironmentsByTagIDs | internal/store/tags.go:251-266 | Keeps exactly the environments carrying every wanted tag, in their order |
| Ownership.CarryingPicks | internal/store/tags.go:251-266 | The result stands at increasing places, and a place is picked iff its item has every wanted tag |
| Ownership.FoldedAlike | internal/store/tags.go:62-72 | Two names are equal to the database iff they differ at most in the case of ASCII letters |
| Hub.FollowsGrows | internal/realtime/hub.go:81-105 | One more publication: a complete stream stays complete by taking the event, or is cut and stays a prefix for good |
| Hub.AddressedGrows | internal/realtime/hub.go:81-105 | An event counts once for an account however often the audience repeats it, and never for the empty account |
| Hub.Hub.Publish | internal/realtime/hub.go:81-105 | Addressed subscriptions take the event or are cut when full, all others are untouched, and every stream stays gap-free |
| Hub.Hub.Subscribe | internal/realtime/hub.go:60-72 | A new registered subscription whose stream starts empty at this point of the log |
| Hub.Hub.Unsubscribe | internal/realtime/hub.go:107-120 | Unregisters and closes once; no empty inner map remains |
| Hub.Hub.Close | internal/realtime/hub.go:74-79 | Idempotent; keeps what was buffered |
| Hub.Hub.Fan | internal/realtime/hub.go:92-103 | Non-blocking send to every entry of one account: kept iff there was room, cut and closed otherwise |
| Hub.Hub.Deliver | internal/realtime/hub.go:88-104 | Serves one account and stores what is left of its entries |
| Hub.Hub.Read | internal/realtime/hub.go:60-72 | Reading moves an event from buffer to consumed and keeps the stream |
| Hub.Hub.constructor | internal/realtime/hub.go:53-58 | An empty valid hub; sizes below one become 64 |
| LoginThrottle.CountersStayBelowTen | internal/store/auth.go:276-314 | Over any run a counter stays at nine or below, no block exceeds 480 seconds, and the cap of 900 never binds |
| LoginThrottle.NineIsReached | internal/store/auth.go:276-314 | Nine failures in one window are reachable, so the bound is tight |
| LoginThrottle.AtMostNinePerWindow | internal/store/auth.go:276-314 | From an empty row at most 9 * (T / 600 s + 1) failures are recorded for a key in T, whatever other keys attempts share |
| LoginThrottle.BlocksEnd | internal/application/auth.go:60-95 | While blocked an attempt changes nothing, so a block ends within 480 seconds of the last recorded failure |
| LoginThrottle.StepKeepsTableOk | internal/store/auth.go:276-314 | Every attempt and sweep keeps the row arithmetic that bounds the counter |
| LoginThrottle.Throttle.LoginThrottleUntil | internal/store/auth.go:257-274 | The latest block among the keys, if any lies ahead |
| LoginThrottle.Throttle.RecordLoginFailure | internal/store/auth.go:276-314 | Each key counts one more failure, in its window or a new one, and is blocked accordingly; no other row changes |
| LoginThrottle.Throttle.ClearLoginThrottle | internal/store/auth.go:316-323 | Forgets exactly the given keys |
| LoginThrottle.Throttle.DeleteLoginThrottlesBefore | internal/store/auth.go:325-328 | Deletes exactly the rows last updated before the stamp, compared as texts, and that is an enabled Sweep step: no block still running is forgotten |
| LoginThrottle.Throttle.Login | internal/application/auth.go:60-109 | Throttled iff a key is blocked, and then nothing changes; a refusal past the gate counts against every key; a success leaves no row of any key; other rows stay |
| LoginThrottle.Keys | internal/application/auth.go:305-315 | The keys of one attempt are distinct |
| LoginThrottle.KeysMeetIff | internal/application/auth.go:305-315 | Two attempts count against a common key iff they are for one name or come from one known address |
| LoginThrottle.BackoffDoubles | internal/store/auth.go:276-314 | No block before the fifth failure, 30 seconds for it, and twice as long for each later one up to 900 |
| PackageVersions.NextKeepsInv | internal/archive/manager.go:147-195 | Upload, activate, note, delete, delete package, transfer and environment changes keep: each package row is the projection of its existing current version, every version has a package row and its own file, one config per package, unique hashes |
| PackageVersions.After | internal/archive/manager.go:147-363 | Every state of every run satisfies that invariant |
| PackageVersions.PathsAreDistinct | internal/archive/manager.go:167-172 | Distinct versions have distinct storage paths, also after transfers |
| PackageVersions.VersionsAreImmutable | internal/archive/manager.go:272-296 | Rows and files never change but for owner and note; a version goes away only unreferenced, or with its package while nothing is installed; DeleteVersion never takes the current one |
| PackageVersions.ConfigStays | internal/archive/manager.go:149-165 | While a package exists its config format and path never change |
| PackageVersions.ActivationIsCompatible | internal/archive/manager.go:249-259 | The incompatible branch of activation is unreachable |
| PackageVersions.PruneOutcome | internal/archive/manager.go:298-308 | After a prune a version is left iff among the first `retain`, current or referenced; a second prune removes nothing |
| PackageVersions.UploadSurvives | internal/archive/manager.go:182-194 | An accepted upload is the current version afterwards, with the note given or kept, whatever its prune removes |
| PackageVersions.UploadDoes | internal/archive/manager.go:95-195 | An accepted upload is shown by the package row, changes no other row, and removes exactly the versions of its package that are not in use and no longer among the first `retain` |
| PackageVersions.UploadRefusals | internal/archive/manager.go:149-181 | An upload is refused for another config format or path, or for a known hash, and for nothing else |
| PackageVersions.HandedKeepsInv | internal/store/admin.go:207-213 | A transfer without package conflict keeps the invariant |
| PackageVersions.Manager.Upload | internal/archive/manager.go:95-195 | Invalid, config changed, known hash, or accepted: which of them when, and then exactly which rows and files there are; a refused upload changes nothing |
| PackageVersions.Manager.ActivateVersion | internal/archive/manager.go:235-264 | Ok iff package and version exist; then the package row names the version as current and shows its file, hash, port and note, is the answer, and no other row changes; never incompatible |
| PackageVersions.Manager.UpdateNote | internal/archive/manager.go:202-224 | Current version and package row carry the text, nothing else changes |
| PackageVersions.Manager.DeleteVersion | internal/archive/manager.go:272-296 | Refuses missing, current and used versions in that order; otherwise exactly this row and its file are gone |
| PackageVersions.Manager.PruneVersions | internal/archive/manager.go:298-308 | The delete loop removes exactly the prunable versions |
| PackageVersions.Manager.DeletePackage | internal/archive/manager.go:322-363 | Refused while an environment has it installed; otherwise nothing of it is left and nothing else is gone |
| PackageVersions.Manager.TransferOwner | internal/archive/manager.go:366-370 | Ok iff checks pass and no service type is shared; then every package, version and environment of the source is the target's, others stay, files stay |
| PackageVersions.Manager.SavePackageVersion | internal/store/package_versions.go:12-46 | Inserts version and projection in one transaction unless the hash exists |
| PackageVersions.Manager.ListVersions | internal/store/package_versions.go:48-64 | The full listing, newest stored time first |
| PackageVersions.Manager.PrunablePackageVersions | internal/store/package_versions.go:130-145 | The indexed loop over the listing finds exactly the versions prunable by rank |
| Keyset.ListingIsUnique | internal/store/admin.go:53 | A set of rows has exactly one listing in the SQL order |
| Keyset.IndexIsRank | internal/store/package_versions.go:130-145 | The listing places every row at its rank |
| Keyset.TextLessIff | internal/store/admin.go:53 | Byte order: up to a first difference equal, and there shorter or smaller |
| ImportExport.RoundTrip | internal/application/environments.go:212-314 | Export, imported into an account without environments and NOCASE-equal tags, exports the same document again: environments, tags, order |
| ImportExport.ServiceRoundTrip | internal/application/environments.go:243-314 | The same through the service: under that condition the export is accepted, and what the import writes exports it again |
| ImportExport.ImportTwice | internal/store/store.go:281-358 | Importing the same records again changes nothing |
| ImportExport.ImportedRow | internal/store/store.go:281-358 | Every record is the row at its place, an existing note kept |
| ImportExport.OtherRowsStay | internal/store/store.go:281-358 | Rows at other places stay |
| ImportExport.ImportedTags | internal/store/store.go:333-350 | The dictionary only grows, by the missing classes, spelled as in the document |
| ImportExport.ExportIsUnique | internal/store/store.go:156-177 | An account has exactly one export |
| ImportExport.ExportIsAccepted | internal/application/environments.go:243-297 | An export passes the import's guard iff the account has an environment, and each one's package is there, its password decrypts, and no two of its tags are equal in Unicode lower case only |
| ImportExport.EmptyExportIsRefused | internal/application/environments.go:247-249 | An account without environments exports a document the import refuses |
| ImportExport.OrphanDoesNotReturn | internal/application/environments.go:262-264 | An environment that outlived its package exports a document the import refuses |
| ImportExport.AccentedTagsDoNotReturn | internal/application/environments.go:286-290 | A concrete account whose export the import refuses |
| ImportExport.AcceptedTagsAreDistinct | internal/application/environments.go:284-290 | Accepted tags are never NOCASE-equal, so no link is inserted twice |
| ImportExport.Service.Export | internal/application/environments.go:212-241 | The document is the account's export: every environment with its tags, by type, name and address, tags by folded group and value |
| ImportExport.Service.Import | internal/application/environments.go:243-314 | Succeeds iff version, non-emptiness and every record are right, and then the rows are as stated below; otherwise the first bad record and its first reason are named and nothing changes |
| ImportExport.ImportDoes | internal/store/store.go:281-358 | An accepted import makes every record the row at its normalised place, with trimmed tags and the former note, leaves other rows and known tags alone, and adds exactly the rows it counts as created |
| ImportExport.ProblemIsReason | internal/application/environments.go:253-297 | The reason given for a record is one that holds, and none looked for earlier holds; a record passes iff no reason holds |
| ImportExport.Service.CheckRecord | internal/application/environments.go:254-282 | The reason a record is refused, in the order of the checks |
| ImportExport.Service.CheckTags | internal/application/environments.go:279-297 | The first bad or duplicate tag, then the limit of 20 |
| ImportExport.Service.UpsertImported | internal/store/store.go:281-358 | The insert-or-overwrite loop with its two counters |
| Paging.WalkOn | internal/httpapi/audit_http.go:364-382 | One more page keeps a walk strictly in order, gap-free and duplicate-free for rows present throughout, under concurrent inserts and deletes |
| Paging.Export | internal/httpapi/audit_http.go:364-382 | The CSV loop: each page from its own table; done exactly at the first page shorter than 200; every row present in all tables written once |
| Paging.ExportOfFixedTable | internal/httpapi/audit_http.go:364-382 | On a table that does not change the export ends after exactly n / 200 + 1 queries with the full sorted listing |
| Paging.ListEvents | internal/store/audit.go:61-83 | The first limit + 1 matching rows past the cursor; limits outside 1..200 mean 50 |
| Paging.ListPage | internal/httpapi/audit_http.go:278-300 | A page, with a next cursor iff more rows were fetched |
| Paging.NextCursorIff | internal/httpapi/audit_http.go:291-298 | There is no next cursor iff the page holds every row left; otherwise every row left out comes after it |
| Paging.Follow | internal/httpapi/audit_http.go:288-299 | A client following next_cursor: the guarantees of a walk with its own limit, and after every full page with a cursor some row was still to come |
| Paging.FollowOfFixedTable | internal/store/admin.go:43-73 | On a table of n rows that does not change the client is done iff n <= limit * tries, after exactly n / limit requests rounded up (one when n = 0), with the full listing |
| Paging.DeleteBefore | internal/store/audit.go:114-125 | Retention deletes only expired rows, oldest text first, at most the limit, and all when under it |
| ConfigRevisions.NextKeepsInv | internal/store/config_revisions.go:11-52 | A projection that names a revision is the newest one, and it names one iff a revision was made since the last change of service type; ids are distinct, ports belong to contents in their format, every rollback repeats an earlier revision |
| ConfigRevisions.RevisionsAreAppendOnly | internal/store/config_revisions.go:17-25 | A step appends at most one revision and never changes one; a rollback's has the content of the revision named |
| ConfigRevisions.EveryContentWasEntered | internal/application/service_configs.go:114-127 | The content of every revision was entered by hand at or before it, through any chain of rollbacks |
| ConfigRevisions.StepAgreesIff | internal/application/service_configs.go:129-182 | From agreement, host file and projection still agree after a step iff it is none of the named kinds; failed writes and compensated commits are not among them |
| ConfigRevisions.CarefulRunsAgree | internal/application/service_configs.go:129-182 | Over any run without those steps, changes of service type and host included, the host agrees, the invariant holds and no revision is lost |
| ConfigRevisions.LostReplyIsNotCompensated | internal/application/service_configs.go:157-160 | A write whose reply is lost after it took effect is not undone, and saving the old content again changes nothing |
| ConfigRevisions.HealsOnlyByANewCommit | internal/application/service_configs.go:73-75 | Entering the current content again heals nothing; committing another one does |
| ConfigRevisions.EditBeforeHealedInstall | internal/operation/manager.go:238-252 | A config edited between a lost install record and the healing install leaves the earlier config on the host |
| ConfigRevisions.RetypedInstallNamesNoRevision | internal/application/environments.go:129-133 | After a change of service type the next install projects the new package's config, which names no revision although revisions exist |
| ConfigRevisions.PortAgreesIff | internal/store/config_revisions.go:36-46 | When the health port stays that of the current config |
| ConfigRevisions.Environment.Save | internal/application/service_configs.go:129-182 | Goes through iff the content is valid, the host confirmed and the database committed; then revision, projection, health port and file are the new content's; otherwise the database is as it was and the file is stated for every way the calls can end |
| ConfigRevisions.Environment.Update | internal/application/service_configs.go:63-85 | No change for the current content, otherwise such a save as a manual revision; is the Update step |
| ConfigRevisions.Environment.Rollback | internal/application/service_configs.go:114-127 | Refused for an unknown or the current revision, otherwise such a save of that revision's content naming it; is the Rollback step |
| ConfigRevisions.Environment.SaveRevision | internal/store/config_revisions.go:11-52 | Revision, projection and health port in one transaction or nothing |
| ConfigRevisions.Environment.GetRevision | internal/store/config_revisions.go:71-77 | Finds a revision by id or reports none |
| ConfigRevisions.Environment.Install | internal/operation/manager.go:200-262 | Refused when installed, taken over from a marker without touching the host, or, if nothing is lost, the current config in file, marker, projection and row; is the Install step |
| ConfigRevisions.Environment.Retype | internal/application/environments.go:80-136 | A change of service type: refused while installed; otherwise drops the projection and keeps the revisions; is the Retype step |
| ConfigRevisions.Environment.Relocate | internal/application/environments.go:99-106 | A change of host or directory: refused while installed; otherwise the install meets another file and marker; is the Relocate step |
| Communications.RunsKeepInv | internal/store/communications.go:174-271 | In every reachable state each thread row agrees with its lawful history, and no message, recipient or reading time is ever lost, read or unread |
| Communications.NextKeepsInv | internal/store/communications.go:174-271 | Each operation keeps that: status, reopen count and deliveries follow from the messages |
| Communications.SystemMessagesAlternate | internal/store/communications.go:216-271 | System messages alternate, starting with a close |
| Communications.NothingBetweenCloseAndReopen | internal/store/communications.go:174-187 | No admin message or receipt lies between a close and the next reopening |
| Communications.LastSystem | internal/store/communications.go:216-271 | A thread is closed iff its last system message is a close |
| Communications.SummaryIsSum | internal/store/communications.go:167-172 | An account's summary is the sum of its unread counts over the threads it can see |
| Communications.UnreadIsCount | internal/store/communications.go:167-172 | The summary is the number of messages addressed to the account without a time of reading |
| Communications.ReadsAreWriteOnce | internal/store/communications.go:154-165 | Recipients never change and a reading time is written once, only by its reader |
| Communications.UnreadOfOthers | internal/store/communications.go:187-206 | Apart from the affected account only a receipt changes counts, by one for exactly the administrators enabled at that moment |
| Communications.SendDoes | internal/store/communications.go:174-214 | A receipt reads the whole thread for its sender and nothing else, leaves his other threads' counts alone and goes to the administrators enabled now; an administrator's message goes to the target; and when each refusal comes |
| Communications.MarkReadDoes | internal/store/communications.go:154-165 | Reading sets exactly the reader's missing times in one thread; his other counts stay |
| Communications.ChangeStateDoes | internal/store/communications.go:216-271 | The thread is open iff it was reopened, only that thread changes, and the target gets the system message; and when each refusal comes |
| Communications.CreateDoes | internal/store/communications.go:14-66 | Exactly when a thread is created, and that it is open with one unread message to its target |
| Communications.ReferencesFitIff | internal/store/communications.go:316-351 | References are accepted iff each names something of the target's in the one form of its kind and none is repeated |
| Communications.ChangedAccountsAreToldIff | internal/application/communications.go:43-55 | An account whose summary changes is told iff the result could be read back after the commit and it is the affected account, or the listing succeeded and it is still an enabled administrator |
| Communications.FailedListingTellsNoAdmin | internal/application/communications.go:120-134 | A failed listing of accounts leaves every enabled administrator untold of a receipt |
| Communications.FailedRereadTellsNobody | internal/store/communications.go:207-213 | When the re-read after the commit fails, the target's count has grown and nobody is told |
| Communications.DisabledAdminIsNotTold | internal/application/communications.go:120-134 | An administrator disabled between the commit and the listing has one more unread message and is not told |
| Communications.Service.Create | internal/store/communications.go:14-66 | The accepting condition, the new thread and its message, the answer and the audience; a refused call changes nothing |
| Communications.Service.Send | internal/store/communications.go:174-214 | Each refusal's condition, the message and its recipients, nothing left unread in the thread for the sender of a receipt, the answer and the audience |
| Communications.Service.ChangeState | internal/store/communications.go:216-271 | Each refusal's condition, the thread's new state and its system message, the answer and the audience |
| Communications.Service.MarkRead | internal/store/communications.go:154-165 | Refused iff the thread is not visible; otherwise nothing in it is unread for the reader, nothing else changed; the answer and the audience |
| Communications.Service.Publish | internal/application/communications.go:120-134 | The audience is the affected account and, if the listing succeeded, the enabled administrators listed |
| Communications.Service.Finish | internal/application/communications.go:43-55 | After the commit: an answer and an audience iff the result can be read back, an error and no publication otherwise |
| Communications.Service.CheckResources | internal/store/communications.go:316-351 | The first bad resource reference decides the refusal: wrong fields, or a package or environment that is not the target's |
| Communications.Service.Summary | internal/store/communications.go:167-172 | Counts the unread recipient rows |
| Paths.AcceptedPathStaysInside | internal/archive/manager.go:674-683 | An accepted entry name is a list of plain names: no `..`, not absolute, and cleaning it again changes nothing |
| Paths.AcceptedIffStaysBelow | internal/archive/manager.go:674-683 | A name is accepted iff it is relative, has neither NUL nor backslash, and leads strictly below whatever directory one starts from |
| Paths.CleanKeepsPlace | internal/archive/manager.go:674-683 | Cleaning a relative path does not change where it leads, from any directory |
| Paths.PlainPathIsAccepted | internal/archive/manager.go:674-683 | A list of plain names is accepted unchanged |
| Paths.SplitOfJoin | internal/archive/manager.go:674-683 | Splitting undoes joining |
| Inspect.InspectedIff | internal/archive/manager.go:462-605 | Without duplicate paths the single pass accepts with a result iff the limits hold and the result reports the set of entries |
| Archives.AcceptedIff | internal/archive/manager.go:462-605 | For every archive: accepted iff it is within the limits, every entry is acceptable, exactly one entry is a config, everything is below its directory, and the last install.sh, start.sh and stop.sh beside it are executable and mention no other config; what is reported is that config's port, format and place and which scripts there are |
| Archives.AcceptableIff | internal/archive/manager.go:483-545 | Which single entry the pass refuses: unsafe path, special file, negative size, config over 10 MiB or without a port, start.sh over 1 MiB |
| Archives.MatchIsName | internal/archive/manager.go:607-635 | The candidate loop finds the config a path names, at the top or below one directory, and a path names at most one |
| Inspect.OrderDoesNotMatter | internal/archive/manager.go:462-605 | Then the result does not depend on the order of entries |
| Inspect.OrderMattersIff | internal/archive/manager.go:462-605 | Every order of an archive is inspected alike iff it does not have, within the limits, with a config and every script available in a good file, some script with a bad file too: not executable or, for start.sh, of another config |
| Inspect.LastFilesDecide | internal/archive/manager.go:504-513 | With or without duplicates, the last file of each script decides |
| Inspect.MixedOrdersDiffer | internal/archive/manager.go:504-513 | Such an archive has one order that is accepted and one that is refused |
| Inspect.DuplicatesDependOnOrder | internal/archive/manager.go:504-513 | A concrete archive with two files of one path accepted in one order and refused in the other |
| Inspect.AcceptedConfigIsACandidate | internal/archive/manager.go:458-460 | The relative config path of an accepted archive is one of the four candidates |
| Inspect.AcceptedEntriesStayInside | internal/archive/manager.go:497-500 | No entry of an accepted archive has a `..` segment |
| Inspect.MatchIsACandidate | internal/archive/manager.go:607-621 | A match names the candidate and the one directory above it |
| Inspect.Inspect | internal/archive/manager.go:462-605 | The loop with its early exits computes the verdict of the specification |
| Inspect.ReadEntry | internal/archive/manager.go:483-545 | The loop body refuses an entry iff it breaks a limit, and otherwise adds it to the accumulators |
| ShellQuote.QuoteRoundTrip | internal/remote/executor.go:569-571 | Tokenising the quoted string gives one word equal to it iff it has no NUL |
| ShellQuote.QuoteIsInjective | internal/remote/executor.go:569-571 | Different strings are quoted differently |
| ShellQuote.ExtractCommandIsRead | internal/remote/executor.go:573-579 | tar is called with exactly the intended words, whatever the paths hold |
| ShellQuote.ComposeLogCommandIsRead | internal/remote/executor.go:581-585 | The log command is read as a directory change and exactly the intended words |
| ShellQuote.DigitsStandFor | internal/remote/executor.go:581-585 | A tail length is written in decimal digits that stand for it |
| ShellQuote.ScriptCommandIsRead | internal/remote/executor.go:346-361 | A lifecycle script is run in the install directory and nothing else is |
| ShellQuote.RenderIsRead | internal/remote/executor.go:569-585 | Any command made of quoted values, ordinary words and `&&` is read as exactly its parts |
| EventReplay.Replay | internal/httpapi/api.go:771-828 | Any chain of polls and reconnections, answers lost, lines half written or torn for good: the events received are the beginning of the readable log after the starting id, in increasing order |
| EventReplay.PollContinues | internal/httpapi/api.go:796-804 | The next answer continues where the received events end, whatever part of the log is visible |
| EventReplay.ScanCaught | internal/operation/manager.go:342-364 | A reader of a file caught in the middle of an append, after any torn writes, gets exactly the events stored on lines of their own |
| EventReplay.CaughtTooLongIff | internal/operation/manager.go:351-352 | Reading fails iff a line, or the unfinished last one, reached the scanner's limit |
| EventReplay.LongLineStopsReplay | internal/httpapi/api.go:796-799 | With such a line anywhere in the file, and whatever follows it, a poll ends the stream and sends nothing |
| EventReplay.LongLineIsForever | internal/operation/manager.go:351-352 | A line that reached the limit stays too long whatever is appended |
| EventReplay.TornLineIsSpoilt | internal/operation/manager.go:403-418 | An event appended after a torn write shares its line and cannot be decoded: one torn write loses the next event too |
| EventReplay.TornTailIsSkipped | internal/operation/manager.go:342-364 | What a torn write leaves at the end of the file is skipped by the reader |
| EventReplay.LaterIncreases | internal/operation/manager.go:358-360 | The events after an id are exactly those of the log with a larger id, increasing |
| EventReplay.ReadEvents | internal/operation/manager.go:342-364 | The scanner loop: none if a line is too long, else the decodable events after the id |
| EventReplay.Stream.PollOnce | internal/httpapi/api.go:793-819 | One poll: what is sent, the new last id, and when the stream ends |
| EventReplay.EventLogger.Write | internal/operation/manager.go:403-418 | Ids increase with every attempt; a write is stored, absent or torn, and a torn one loses its own event and the next that is stored |
| Health.AlertExactlyAtThird | internal/health/monitor.go:156-171 | An alert is raised exactly by the third consecutive unhealthy result since the last healthy one, restart or removal, and never twice in one outage |
| Health.CountersFollowStreak | internal/health/monitor.go:156-171 | The four maps of the monitor follow that streak over any run |
| Health.RunsKeepInv | internal/health/monitor.go:156-191 | In every reachable state, also after a restart, a healthy environment has no unresolved health notification, open keys are open once, and resolved implies read |
| Health.NextKeepsInv | internal/store/notifications.go:13-34 | Each operation keeps that |
| Health.AlertLeavesOneOpen | internal/store/notifications.go:20-33 | After an alert the environment has exactly one open health notification |
| Health.HealthyResolves | internal/store/notifications.go:148-155 | A healthy result leaves none open and touches no other notification |
| Health.TimesAreWriteOnce | internal/store/notifications.go:123-155 | Reading and resolving times, and who resolved, are written once; only resolved rows are deleted |
| Health.UnreadAtMostUnresolved | internal/store/notifications.go:117-121 | Unread never exceeds unresolved |
| Health.Monitor.RecordResult | internal/health/monitor.go:156-191 | Counts or ends the outage, raises at most one notification from the third unhealthy result on, resolves exactly the open ones of its key, and changes nothing else; is the Record step |
| Health.Monitor.CheckAll | internal/health/monitor.go:118-154 | A round records every result and then forgets exactly the environments not listed |
| Health.Monitor.CreateNotification | internal/store/notifications.go:13-34 | Inserts unless the key is open already |
| Health.Monitor.ResolveNotification | internal/store/notifications.go:135-146 | The notification is read and resolved by the actor now, or as it was before; no other row changes |
| Health.Monitor.MarkNotificationRead | internal/store/notifications.go:123-133 | The notification is read by the actor now, or as it was before; no other row changes |
| Health.Monitor.Summary | internal/store/notifications.go:117-121 | The two counts, the first at most the second |

## Left out

- SSH and SFTP transport, gzip and tar decoding, SQLite, bcrypt, AES-GCM, JSON and YAML parsing,
  HTTP probing: foreign code, modelled by parameters or by success and failure.
- The web front end, routing, middleware, audit labelling, CSV cell escaping, config loading:
  single-branch facts.
- Encoding and decoding of the paging cursor: JSON and base64; the model passes the cursor itself.
- RemoteMarkers.Site.Install: the effects of the package's own scripts, and calls that take
  effect on the host after the client has given them up, are not modelled.
- RemoteMarkers.InstallIsTruthfulIff: the ways an install can be cut are those of the effect
  relation that `RemoteMarkers.Site.RunInstall` meets.
- LoginThrottle.Throttle.Login: logins that overlap between the check and the record of a failure
  are modelled one after another.
- PackageVersions.NextKeepsInv: starts from an empty database; rows written by migrations, whose
  config columns are empty, are not modelled, nor is a crash between the file and the row of a
  version, nor failing file operations.
- PackageVersions.Manager.Upload: an in-flight install does not count as a reference, as in the
  program, so nothing is claimed about the version it is installing.
- ImportExport.RoundTrip: tag ids are represented by their NOCASE class, which is unique in a live
  dictionary; the normalisation of form fields is a parameter that leaves stored rows unchanged.
- ConfigRevisions.StepAgreesIff: deleting a package and uploading another layout under the same
  type, environments imported as installed, and a failed removal of the config row after a change
  of service type are not modelled; while a package exists `PackageVersions.ConfigStays` fixes its
  format and path.
- Communications.Service.Create: titles and labels shown with a resource are left out; trimming
  and lower-casing of the input are done by the caller.
- Paging.Export: a failing listing is modelled as running out of tables to read; the check of the
  number of rows before the export is left out.
- Inspect.Inspect: which of several errors is reported, since it does depend on the order of entries;
  the cumulative limits are modelled as totals, which the sign checks make the same.
- ShellQuote.RenderIsRead: shell constructs the commands do not use break the modelled lexer.
- EventReplay.Replay: a poll between an append that lacked only its newline and the next append is
  left out. Delivery of the last state event is not claimed: the stream may end on its second empty
  poll before that event is logged.
- Health.Monitor.RecordResult: one atomic step; the program releases its mutex before it writes the
  notification.
- Hub.Hub.Publish: accounts are served in the order of the audience and entries of one account in
  any order, under the hub's mutex.
- Password, session and account management, validation of hosts, dashboards
  and summaries: each is a single statement or a single branch.
