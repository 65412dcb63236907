# Simple Container Registry: a verified model

A container registry that keeps manifests, tags and blobs as files, and a read model of its repositories in SQLite.
This project models the parts of it where several steps, several files or several goroutines have to agree, and
proves what they agree on. `dafny verify dfyconfig.toml` checks everything.

How the parts fit together:

- **Tags and manifests.** `TagMachine` is the protocol of one repository as single file and database writes: push,
  added tag, overwrite check, link, rollback, delete, garbage collection, policy update, and the two operations that
  take no lock (pulls, and the delete of a repository row, which the user interface sends some time after it has listed
  no tags). `TagInvariants` proves what each step keeps, `TagRuns` what holds over runs of all repositories interleaved,
  `TagPolicy` what changes the policy in force and what a policy does for a tag until then, `TagNames` for which
  spellings of a repository the protection holds; `TagAgreement` says exactly when files and rows agree, and `TagFailures` builds the runs in which
  a promise fails. `ReadModel` gives the SQL statements their meaning and proves the aggregates exact.
  `ManifestStore`, `Store` and `TagServer` are the code as classes; every method also returns the steps of the
  protocol it took, so what is proved of the steps is proved of the code.
- **Uploads.** `UploadLocks` is the reference-counted lock table under any interleaving, `UploadLockTable` its code.
  `UploadAppend` is one chunk: Content-Range and the bounded append. `UploadSessions` puts sessions, appends, commits,
  deletes and the cleaner on top of the lock table, and `UploadServer` is the handlers as code over those steps.
- **The limiter** (`AuthLimiter`), **routes** (`Routes`), **pagination** (`Pagination`), **access** (`Access`), the
  **storage layout** (`Layout`), the **walk of the garbage collector** on it (`Collector`) and the **blob store**
  (`Blobs`).

Hashing, JSON parsing, regular expressions and the normalising of user names are parameters, and so are clock
readings. A call on the disk or the database that can fail is a nondeterministic choice at the point of the call.

## Where a promise holds only under a condition

Each of these is a counterexample together with the exact condition, or a stated hypothesis.

- Overwrite protection looks the policy up under the name as the request spells it, the files go by the trimmed name
  (`internal/storage/filesystem.go:1018-1029`, `internal/httpserver/server.go:730-785`). Requests under a name
  respect protection if and only if the name has no slash at either end: `TagNames.GuardedExactlyWhenCanonical`.
- Overwrite protection holds at every step, whatever failed before, at which the policy is fixed: the repository has a
  tag row, or no policy of it has stood without its repository row so far (`TagRuns.PolicyIsFixed`,
  `TagRuns.OverwriteProtection`). The first is always so at a step that moves a tag, unless a rollback write failed or
  an unlocked delete took tag rows before (`TagRuns.MovedTagsAreRecorded`); the second holds if and only if no policy
  was stored after the row had gone (`TagRuns.PoliciesStayRootedExactly`). Where neither holds a protected tag can be
  moved, after a failed rollback (`TagFailures.StrayPolicyOverrides`) or without any failure
  (`TagFailures.ErasedRowOverrides`).
- The user interface deletes a repository without the lock once it has listed no tags, and does not look again
  (`internal/httpserver/ui.go:490-507`): a tag that was pushed in between keeps its file and loses its row
  (`TagFailures.ErasedRow`).
- A policy row can outlive its repository, because the policy update looks the repository up and writes in two
  statements, and the delete of a tagless repository takes no lock: `ReadModel.PoliciesRootedExactly`,
  `ReadModel.PolicyOutlivesRepository`.
- `DeleteManifest` removes a manifest before the tags that name it, so a removal that stops half-way leaves tags that
  name nothing. Every tag resolves whenever the lock is free if and only if no step stranded tags in this way:
  `TagRuns.TagsResolveExactly`, with a run in `TagFailures.StrandedTag`.
- `os.WriteFile` truncates before it writes, so a second push of a manifest that fails can leave a tag with content
  that does not hash to its digest. Stored content hashes if and only if no failed write tore it:
  `TagRuns.ContentsHashExactly`, with a run in `TagFailures.TornContent`.
- Tag files and rows agree whenever the lock is free if and only if no rollback ended with a tag it had not put back,
  no delete gave up with the row of a tag it had removed, no unlocked delete took tag rows while the lock was free, and
  no section in which one took them ended with a tag it had not recorded: `TagAgreement.FilesMatchRowsExactly`, with
  runs in `TagFailures.UnrecordedTag`, `TagFailures.StaleRow` and `TagFailures.ErasedRow`.
- What is said of tags over runs (`TagRuns`, `TagAgreement`, `TagNames`) is said of repositories that keep their files
  apart (`TagRuns.Independent`): none lies along a file or a manifest of another, and where garbage is collected none
  has a component "manifests". Then no write or removal for one changes what is read for another
  (`Layout.ApartWritesAreLocal`, `Layout.ApartRemovalsAreLocal`, `Collector.CollectionIsPerRepository`). Otherwise a
  push to one can put a tag into another that names nothing (`Layout.LockFileIsTag`), and a directory of one can pass
  for a blob link of another (`Blobs.DirectoryCountsAsLink`, `Blobs.BlobStore.ReadBlob`).
- The temporary file of a failed link is removed with an ignored error. Where that fails too, a file called `.tag-` and
  digits stays in the tag directory, and counts as a tag without a row (`internal/storage/filesystem.go:822-849`). The
  results on tag files suppose that it is removed.
- The tag "." passes the check of tag names, and `filepath.Join` makes its file the tag directory itself
  (`Layout.DotTagIsTheTagDirectory`). It can be linked only while there is no other tag, and while it is there no
  other tag can be reached, no manifest can be deleted by digest, and garbage collection fails; the methods of
  `ManifestStore` and `TagServer` say so in their results.
- `appendUpload` reads up to `remaining+1` bytes. With a limit of 2^63-1 and an empty session that wraps, nothing is
  read and success is reported: `UploadAppend.SuccessIsCompleteExactly`.
- `uploadRange` answers `0-0` for an empty session as well as for one byte:
  `UploadAppend.RangeTellsWhereToResume` says exactly when a client can resume from it.
- The limiter reads the clock before it takes its mutex. Pruning is unobservable for exactly the orders of arrival in
  which the clock readings do not go back: `AuthLimiter.PruningIsUnobservableExactly`, with a run in
  `AuthLimiter.OutOfOrderPruningShows`. The rate bound needs that order too: out of it any number of attempts can pass
  (`AuthLimiter.LateAttemptsAreUnbounded`).
- `addRepositoryTag` reads the row back after the tag is linked and recorded, so an error of that read comes with the
  tag in place; every other error but a failed rollback leaves files and rows as they were:
  `TagServer.Server.AddRepositoryTag`.
- The garbage collector takes what lies two levels below any directory "manifests" for manifests. It collects the
  repositories as it should if and only if no component of their names is "manifests"
  (`Collector.CollectsManifestsExactly`); one at the front makes every collection fail (`Collector.HaltsExactly`), and
  one further on gives tags and whole repositories to the collector (`Collector.TagsAreCollected`,
  `Collector.TakesMore`).
- `safeRepositoryPath` reserves no component. Two repositories share or nest files exactly when the components of one
  continue those of the other along a file of it (`Layout.RepositoriesMeetExactly`), which every accepted name has a
  partner for (`Layout.ReservedNamesAlias`); uploads nest exactly when one name continues the other's owner and upload
  (`Layout.UploadsNestExactly`); the migration takes a manifest for another repository's exactly when a component past
  the first is "manifests" (`Layout.MigrationNamesExactly`); and `Routes.NamesExactly` says for which names each kind
  of path is read back.
- A scope for a repository whose name holds a colon cannot be parsed back: `Access.ScopeRoundTripsExactly`.

## Model

| member | source | states |
|---|---|---|
| ReadModel.Aggregate | internal/db/store.go:333-338 | One pass over the tag rows computes COUNT(*), COUNT(DISTINCT digest), and the sum over distinct digests of the largest size |
| ReadModel.ExecuteKeepsConsistent | internal/db/store.go:286-346 | Every statement keeps the three aggregates exact and every tag row under its repository row |
| ReadModel.AggregatesExactOverRuns | internal/db/store.go:286-560 | In every state of every run of statements the stored counts and sizes are those of the rows |
| ReadModel.PoliciesRootedExactly | internal/db/store.go:392-424 | Policy rows keep their repository row throughout a run if and only if every policy write finds it |
| ReadModel.PolicyOutlivesRepository | internal/httpserver/ui.go:490-507 | Lookup, unlocked delete and policy write in that order leave a policy without a repository |
| Database.Store.UpsertRepositoryTags | internal/db/store.go:286-346 | On success the row of each tag has the digest, media type and size of its last parameters and the time of the push, and keeps its pull time exactly if it already named every digest given for the tag; other rows, policy and last pull stay, and the aggregates are exact; a failure changes nothing |
| Database.Store.GetRepositoryTagPolicy | internal/db/store.go:362-390 | Answers the stored policy if there is a repository row and a policy row, and the mutable policy otherwise |
| Database.Store.UpdateRepositoryTagPolicy | internal/db/store.go:392-424 | Writes a valid policy for an existing repository, without a pattern under the other modes; otherwise changes nothing and says which of the reasons it was |
| Database.Store.DeleteRepositoryManifestReference | internal/db/store.go:426-463 | On success exactly the rows of the tag, or of the digest, are gone: as long as one is left policy, last push and last pull stay and the aggregates are exact, and with the last row the repository and its policy go |
| Database.Store.GetRepositoryTag | internal/db/store.go:348-360 | Answers the row of that tag, NotFound exactly if there is none, unless the read fails |
| Database.Store.MarkRepositoryPulled | internal/db/store.go:465-498 | Creates or marks the repository row, gives the pull time to exactly the tags the reference names, and keeps digests, policy, keys and aggregates |
| Database.Store.DeleteRepository | internal/db/store.go:546-560 | Deletes row, tags and policy together, or reports a missing repository and changes nothing |
| Database.Store.DashboardSummary | internal/db/store.go:582-588 | The totals over repositories and tags are the sums of the exact per-repository aggregates |
| ReadModel.UpsertRecords | internal/db/store.go:320-341 | What the statement leaves of each row and of the repository, last parameters, pull times and aggregates included |
| TagInvariants.StepKeeps | internal/httpserver/server.go:663-802 | Every step of the protocol keeps the invariant that ties files, rows and the state of the lock holder, failed writes and deletes of the repository row at any moment included |
| TagInvariants.MoveIsPermitted | internal/httpserver/server.go:753-802 | Any single write that changes what a tag names, rollback writes included, moves a tag the policy in force does not protect, provided the repository has a tag row or no policy was stored while its row was gone |
| TagInvariants.MovedTagIsRecorded | internal/httpserver/server.go:770-802 | A tag that is moved has its row, so the first proviso holds, unless a rollback write failed or an unlocked delete took tag rows before |
| TagInvariants.LinkRecords | internal/httpserver/server.go:770-785 | A committed link gives every listed tag the row of the push and leaves every other row, the policy and the last pull |
| TagInvariants.FaultsAreDamage | internal/storage/filesystem.go:309-330 | A removal, torn write or stray policy on record has just left a tag that does not resolve, content that does not hash, or a policy without its repository |
| TagInvariants.RollbackFindsManifests | internal/httpserver/server.go:787-802 | The manifest a rollback has to name again is still stored |
| TagInvariants.RunsKeep | internal/httpserver/server.go:663-802 | The invariant holds along every run of one lock section |
| TagRuns.FilesMatchRowsAtRest | internal/httpserver/server.go:675-785 | Whenever the lock of a repository is free, its tag files are a sub-map of its rows if no rollback write failed and no unlocked delete took tag rows, and its rows are a sub-map of its tag files if no rollback, removal or database write of a delete failed |
| TagAgreement.StepOwes | internal/httpserver/server.go:663-802 | In a section that began with files and rows in agreement and whose rows no unlocked delete takes, a step ends it in disagreement exactly if it leaves a linked tag not put back or the row of a removed tag |
| TagAgreement.ErasedOwes | internal/httpserver/ui.go:490-507 | In a section whose rows were taken, the step that ends it leaves agreement exactly if every tag file is one it has just recorded |
| TagAgreement.FilesMatchRowsExactly | internal/httpserver/server.go:675-802 | Over interleaved runs of repositories that keep their files apart the tag files and the rows of a repository are the same map at every moment its lock is free if and only if no step is one of four: those two, an unlocked delete of tag rows while the lock is free, and the end of a section in which one fell with a tag not recorded |
| TagRuns.TagsResolveExactly | internal/storage/filesystem.go:288-330 | In runs of repositories that keep their files apart every tag names a complete manifest at every moment the lock is free if and only if no step stranded tags |
| TagRuns.ContentsHashExactly | internal/storage/filesystem.go:155-186 | All stored content hashes to its digest in every state if and only if no failed write tore it |
| TagRuns.PoliciesStayRootedExactly | internal/db/store.go:392-424 | Over interleaved runs policy rows keep their repository row if and only if none is stored after it has gone |
| TagRuns.NoTagDangles | internal/storage/filesystem.go:255-286 | Where repositories keep their files apart and nothing was stranded or torn, every tag names complete content that hashes to its digest |
| TagRuns.DotTagIsAlone | internal/storage/filesystem.go:822-849 | Over interleaved runs no other tag has a file while the tag "." has one |
| TagRuns.StepMovesUnprotected | internal/httpserver/server.go:730-802 | In any run, whatever failed in it, no step moves a protected tag while the policy of its repository is fixed |
| TagRuns.MovedTagsAreRecorded | internal/httpserver/server.go:787-802 | A tag that is moved has its row, and the policy is fixed, if no rollback write failed and no unlocked delete took tag rows before |
| TagRuns.OverwriteProtection | internal/httpserver/server.go:730-824 | If a tag names different digests at two moments of any run without being deleted in between, some step moved it, and there the policy in force did not protect it or was not fixed |
| TagPolicy.PolicyAfterStep | internal/db/store.go:362-463 | The policy in force after any step: a stored one takes force with the repository row, a delete of the row or of the last tag ends it, a row that is made brings a stray one back, anything else leaves it |
| TagPolicy.PolicyChangesOnlyBy | internal/db/store.go:426-463 | Between two moments of a run with different policies in force there was one of those four kinds of steps |
| TagPolicy.ProtectedTagStays | internal/httpserver/server.go:730-824 | From a moment at which the policy protects a tag, the tag names the same digest as long as it is not deleted, no such step occurs and the policy is fixed |
| TagPolicy.PoliciesCompile | internal/db/store.go:398-410 | Over interleaved runs every pattern policy in force is not empty and compiles |
| TagFailures.StrayPolicyOverrides | internal/httpserver/ui.go:490-507 | Under every canonical name a run in which a protected tag is moved because a stray policy comes into force after the check, its row lost to a failed rollback |
| TagFailures.ErasedRowOverrides | internal/httpserver/ui.go:490-507 | Another such run in which nothing fails, the row lost to a delete that did not look again |
| TagFailures.StrandedTag | internal/storage/filesystem.go:309-330 | A run that ends with a free lock and a tag whose manifest is gone |
| TagFailures.TornContent | internal/storage/filesystem.go:177-182 | A run that ends with a free lock and a tag whose content is empty and does not hash to its digest |
| TagFailures.UnrecordedTag | internal/httpserver/server.go:778-785 | A run that ends with a free lock and a tag without a row, after a failed rollback |
| TagFailures.ErasedRow | internal/httpserver/ui.go:490-507 | A run without a failure that ends with a free lock and a tag without a row |
| TagFailures.StaleRow | internal/httpserver/server.go:675-681 | A run that ends with a free lock and a row without a tag |
| TagNames.GuardedExactlyWhenCanonical | internal/storage/filesystem.go:1018-1029 | Requests under a name never move a tag against a fixed policy, whatever fails, if and only if the name is its own directory |
| TagNames.UncanonicalOverrides | internal/httpserver/server.go:730-785 | For every other accepted name a run in which an immutable tag is moved although the policy of its directory is fixed |
| ManifestStore.Filesystem.PutManifestContent | internal/storage/filesystem.go:155-186 | Stores content and media type under the given digest, which must be the hash of the content, or under its own hash; the time of the directory moves only if a file was missing; a write that fails touches that manifest alone |
| ManifestStore.Filesystem.WriteManifest | internal/storage/filesystem.go:174-184 | Both files whole on success; on an error any prefix of the one being written may be left, with the fault on record if it does not hash |
| ManifestStore.Filesystem.ManifestTagDigest | internal/storage/filesystem.go:189-211 | Answers the digest the tag file holds, and says whether it was the name, the tag, its absence, its text or the disk otherwise |
| ManifestStore.Filesystem.LinkManifestTag | internal/storage/filesystem.go:237-253 | Points the tag at a stored manifest, or changes nothing and says why; "." only where there is no other tag, and no other where there is "." |
| ManifestStore.Filesystem.GetManifest | internal/storage/filesystem.go:255-286 | Resolves a tag or digest to the stored content, the stored media type without surrounding white space, and the digest |
| ManifestStore.Filesystem.DeleteManifest | internal/storage/filesystem.go:288-330 | A tag reference removes the tag alone; a digest reference removes the manifest and every tag that names it, and cannot succeed while the tag "." is there |
| ManifestStore.Filesystem.DeleteTagReferences | internal/storage/filesystem.go:782-807 | Removes exactly the tags that name the digest |
| ManifestStore.Filesystem.CollectRepository | internal/storage/filesystem.go:710-751 | What is left are the tags and exactly the manifests that a tag names or that are newer than the cutoff; counts the ones that are gone |
| ManifestStore.Filesystem.CollectGarbage | internal/storage/filesystem.go:689-757 | The same over all repositories, none of which then has the tag "."; when stopped by a failure, nothing but garbage has been touched |
| TagServer.Server.CheckTag | internal/httpserver/server.go:744-768 | Passes a tag and remembers what it names; refuses for protection exactly where the tag names another digest and the policy is immutable or a pattern that compiles and matches it |
| TagServer.Server.RollbackManifestTags | internal/httpserver/server.go:787-802 | Undoes the links in reverse, going on past failures; without one every tag names again what it named before |
| TagServer.Server.LinkManifestTagsLocked | internal/httpserver/server.go:730-785 | All or nothing for any list of tags and any failure point: success maps every listed tag to the digest in the files, and its row to digest, media type, size and time, and leaves the others; an error with clean rollback leaves both as before. If a listed tag names another digest and the policy in force is immutable or a matching pattern the outcome is a refusal, and only then a refusal for protection |
| TagServer.Server.PutManifestAndTags | internal/httpserver/server.go:689-703 | A push stores the manifest under the digest that names it, touching no other, then links and records all its tags with media type and estimated size, or none; protected as above |
| TagServer.Server.AddRepositoryTag | internal/httpserver/server.go:705-728 | Names a stored manifest by one more tag, recorded with its trimmed media type and estimated size, and answers its row; an error reading that row leaves the tag linked and recorded, a refusal or clean rollback leaves files and rows as they were; protected as above |
| TagServer.Server.DeleteManifestReferenceLocked | internal/httpserver/server.go:675-681 | On success exactly the tag, or the manifest and every tag that names it, is gone from files and rows, and the policy stays unless no row is left; on an error the rows are unchanged, and a reference that is not found changes nothing |
| AuthLimiter.AuthAttemptLimiter.Allow | internal/httpserver/auth_limit.go:39-80 | Sweeps if due, checks every key and only then charges every key, with the answer and retry time of the specification |
| AuthLimiter.AuthAttemptLimiter.Sweep | internal/httpserver/auth_limit.go:54-61 | Deletes exactly the expired windows |
| AuthLimiter.AttemptMeans | internal/httpserver/auth_limit.go:39-80 | One attempt in numbers: refused while the window of the address holds 60 or that of a named account 20, for as long as it runs; otherwise both take one more in a window of a minute; a sweep once a minute |
| AuthLimiter.DeniedChargesNothing | internal/httpserver/auth_limit.go:62-70 | A denied attempt leaves every live window of every key as it was, and waits for a window that is full |
| AuthLimiter.PruningIsUnobservable | internal/httpserver/auth_limit.go:54-61 | On every trace with a nondecreasing clock, pruning and never pruning give the same answers and retry times |
| AuthLimiter.PruningIsUnobservableExactly | internal/httpserver/auth_limit.go:39-61 | For any list of arrival times, pruning is unobservable on all tables and all attempts at these times if and only if the times never decrease |
| AuthLimiter.RateBound | internal/httpserver/auth_limit.go:39-80 | Of attempts in the order of their clock readings, any half-open interval of a window's length lets through at most twice the limit less one of a key, whatever else happens |
| AuthLimiter.LateAttemptsAreUnbounded | internal/httpserver/auth_limit.go:40-53 | Out of that order any number of full bursts of an account can be let through at one clock reading |
| AuthLimiter.RateBoundIsReached | internal/httpserver/auth_limit.go:11-16 | A trace that lets 39 attempts of an account through, so the bound cannot be lowered |
| AuthLimiter.AddressBoundIsReached | internal/httpserver/auth_limit.go:11-16 | An address gets 60 attempts through at once and waits a minute with the next, and 119 into the interval of the bound |
| AuthLimiter.OutOfOrderPruningShows | internal/httpserver/auth_limit.go:40-53 | The shortest such run: a late attempt is let through because the full window it belongs to was pruned |
| UploadLocks.StepKeeps | internal/storage/filesystem.go:71-92 | Registering, locking, unlocking and unregistering keep entries shared, counted and held by one |
| UploadLocks.LockTableIsSound | internal/storage/filesystem.go:71-92 | In every interleaving: one holder a path, one shared entry, refs the number of goroutines registered, a path in the table exactly while it is used, an empty table at rest |
| UploadLocks.NobodyIsStuck | internal/storage/filesystem.go:81-91 | A waiter can take its mutex, or a goroutine that holds the same path can let go |
| UploadLockTable.UploadLockSet.Register | internal/storage/filesystem.go:72-79 | The first critical section is the register step: finds or makes the entry and counts in |
| UploadLockTable.UploadLockSet.Unregister | internal/storage/filesystem.go:84-90 | The second is the unregister step: counts out and drops the path with its last user |
| UploadAppend.ParseDecimal | internal/httpserver/server.go:1178-1185 | A printed number parses back as itself exactly up to 2^63-1 |
| UploadAppend.IntegersExactly | internal/httpserver/server.go:1178-1185 | The texts that are read as integers are digits with at most a sign, of a value that fits into 64 bits |
| UploadAppend.RangeAcceptedInOrder | internal/httpserver/server.go:1170-1190 | A well-formed range is accepted exactly when it starts at the current size |
| UploadAppend.RangeAcceptedExactly | internal/httpserver/server.go:1170-1190 | Whatever the header, a chunk is accepted exactly without one, or with two numbers in order around the first dash of which the former is the current size |
| UploadAppend.RangeTellsWhereToResume | internal/httpserver/server.go:1236-1241 | The Range header tells a client where to resume exactly when the session is not empty |
| UploadAppend.CopyLimited | internal/httpserver/server.go:1208-1211 | Copies a prefix of the body up to the limit, all of it unless a read or write fails |
| UploadAppend.AppendUpload | internal/httpserver/server.go:1198-1223 | Ends in one of the outcomes of the specification, whichever of open, read, write, truncate or stat fails |
| UploadAppend.AppendKeepsBounds | internal/httpserver/server.go:1204-1222 | A session never exceeds the limit by more than one byte, success is within it, and a refused append restores the old bytes |
| UploadAppend.AppendKeepsPrefix | internal/httpserver/server.go:1198-1223 | A body that continues a blob where the session ends leaves a prefix of the blob, however the append ends |
| UploadAppend.SuccessIsCompleteExactly | internal/httpserver/server.go:1204-1208 | Success means the whole body was taken, except exactly for a limit of 2^63-1 on an empty session |
| UploadAppend.RefusedExactlyWhenTooLarge | internal/httpserver/server.go:1212-1217 | An append that runs to its end is refused exactly when the body does not fit |
| UploadSessions.StepKeeps | internal/httpserver/server.go:377-539 | Every step of starts, chunks, commits, deletes and cleanup keeps the session invariant |
| UploadSessions.SessionsWithinCap | internal/httpserver/server.go:402-430 | Under any interleaving a repository and owner never have more upload files than the cap |
| UploadSessions.SizesWithinLimit | internal/httpserver/server.go:1198-1223 | Every reachable session is at most one byte over the limit, every committed blob within it and matching its digest |
| UploadSessions.CleanupSparesFreshFiles | internal/storage/filesystem.go:581-604 | At the step that removes a file for the cleaner the file is no younger than the cutoff, and no other file goes |
| UploadSessions.SizeReadIsCurrent | internal/httpserver/server.go:463-480 | The size a request read is still the size of the session when it appends |
| UploadSessions.ChunksKeepPrefix | internal/httpserver/server.go:462-516 | If every chunk declares its range and carries the blob's bytes from there, every session is a prefix of its blob in every run, and one of full length is the blob |
| UploadServer.Uploads.CountUploads | internal/storage/filesystem.go:532-551 | Counts exactly the upload files of the directory, or reports that it cannot be listed |
| UploadServer.Uploads.HandleUploadStart | internal/httpserver/server.go:377-447 | Creates an empty session within the cap, or commits a whole blob, or leaves other uploads and the blobs alone; too large for a declared length over the limit, and otherwise only for a body that is; a bad request only where the digest does not match or the rename fails; its steps are a run of the session machine |
| UploadServer.Uploads.HandleChunk | internal/httpserver/server.go:462-516 | PATCH and PUT: refused out of order or over the limit without losing a byte, accepted with the old content and the body, committed under a digest the whole content matches. Too large only if the content and the declared length, or the content and the body, are over the limit; a declared length over what is left never gets through; a bad request only for a missing or wrong digest or a failed rename |
| UploadServer.Uploads.HandleDelete | internal/httpserver/server.go:525-534 | Removes the session or reports that there is none |
| UploadServer.Uploads.CleanupStaleUploads | internal/storage/filesystem.go:556-610 | Removes exactly the expired files of the walk and reports as many; a failure stops it early |
| Routes.RoundTrip | internal/httpserver/server.go:1002-1077 | The path printed for any target whose repository misleads no branch of the parser reads back as that target: for pull under GET and HEAD of manifests and blobs, GET of referrers and any method of tag lists; for push under PUT of manifests, POST of uploads, PATCH, PUT, GET and DELETE of an upload; for delete under DELETE of manifests and blobs; the catalog for admin; and under other methods as no route |
| Routes.PathsInWords | internal/httpserver/server.go:1002-1057 | The paths of all seven kinds as literal texts, with what they are read as |
| Routes.ChangesNeedMore | internal/httpserver/server.go:1002-1077 | Whatever the path, a request that changes something is routed for push or delete, and the catalog alone for admin |
| Routes.PathsAreDistinct | internal/httpserver/server.go:1232-1234 | Different targets never share a path |
| Routes.ReadIsPrinted | internal/httpserver/server.go:1051-1057 | A path that is read as a target is the path printed for it; only a tag list ignores what follows |
| Routes.NamesExactly | internal/httpserver/server.go:1002-1049 | For each kind of path the exact condition on the components of a repository for the path to read back: no later component is the marker of an earlier branch or of its own, or "tags" before one that starts with "list" |
| Pagination.PageStrings | internal/httpserver/server.go:1132-1144 | The names after the cursor, cut one past the page |
| Pagination.LessExactly | internal/httpserver/server.go:1132-1144 | The order of the pages is that of a dictionary |
| Pagination.LimitsExactly | internal/httpserver/server.go:1121-1130 | A request may ask for no limit or for a number that is not negative |
| Pagination.NoLimitNoLink | internal/httpserver/server.go:840-848 | Without a limit the whole list past the cursor comes at once, and no link |
| Pagination.ListTags | internal/httpserver/server.go:826-851 | The page of the specification with its next link, or a refusal of a bad limit |
| Pagination.ListCatalog | internal/httpserver/server.go:876-913 | The same specification met by the catalog's own loop |
| Pagination.LinkKeepsLimit | internal/httpserver/server.go:842-847 | A next link asks for pages of the same size |
| Pagination.FollowingLinksIsComplete | internal/httpserver/server.go:840-848 | Over a fixed set the links end after the length divided by the page size, rounded up, pages (one if empty), full but for the last, that concatenate to the whole list |
| Pagination.WalkOverChangingSet | internal/httpserver/server.go:840-848 | While the set changes no name repeats, and every name present at each request is listed once the walk ends |
| Access.ParseScope | internal/auth/scope.go:22-45 | Reads a scope text as the specification does |
| Access.ScopeReadExactly | internal/auth/scope.go:22-45 | A scope is read from a text exactly if the text is "repository:", its name and a list whose entries, empty ones left out, are the words of its actions |
| Access.WordsOfActions | internal/domain/domain.go:19-24 | The words "pull", "push", "delete" and "admin" ask for those actions |
| Access.ScopeRoundTripsExactly | internal/httpserver/server.go:245-258 | A scope the server challenges for is read back by the token endpoint exactly when the repository is named and has no colon |
| Access.MatchesExactlyWhatItCovers | internal/auth/scope.go:99-109 | Matching text by text is being `*` or a prefix component by component |
| Access.PrefixOfName | internal/auth/scope.go:99-109 | Slashes around the prefix of a grant do not matter: it covers the name and what lies below it |
| Access.StarAndNothing | internal/auth/scope.go:99-109 | A star covers everything and an empty prefix nothing |
| Access.UniqueActions | internal/auth/scope.go:111-122 | Keeps the first occurrence of each action |
| Access.UniqueKeeps | internal/auth/scope.go:111-122 | That list holds the same actions, none of them twice |
| Access.UniqueGrows | internal/auth/scope.go:111-122 | The list for a longer input continues the list for its beginning, so first occurrences decide the order |
| Access.AllowedActions | internal/auth/scope.go:73-97 | The requested actions some applicable grant lists, once each; all of them for an administrator |
| Access.IntersectAccess | internal/auth/scope.go:47-57 | One claim for each scope that has an allowed action |
| Access.IntersectionMeans | internal/auth/scope.go:47-71 | The claims give an action exactly when it, or admin, was requested for the repository and granted |
| Access.DecisionIsExact | internal/httpserver/server.go:253-293 | A request passes exactly when the token claims the repository with the action or admin and, but for administrators, a current grant lists that very action with a covering prefix |
| Access.PullersChangeNothing | internal/httpserver/server.go:225-293 | Whoever has a token for pulls alone, or is no administrator and has grants for pulls alone, changes no tag, manifest, blob or upload by any request, and only administrators get the catalog |
| Access.TokenAndGrantsCompose | internal/httpserver/server.go:188-188 | For a token minted under some grants and used under others, both must have granted |
| Access.GrantsOnlyAdd | internal/auth/scope.go:73-97 | More grants at issue or at use never take access away |
| Layout.FilesNeverMeet | internal/storage/filesystem.go:105-135 | For repositories without reserved components no two things share a file and no file lies below another; for uploads, without components like an upload's name |
| Layout.RepositoriesMeetExactly | internal/storage/filesystem.go:809-849 | Two accepted repositories share a file, or keep one below a file of the other, if and only if the components of one continue those of the other along a file of it |
| Layout.ApartWritesAreLocal | internal/storage/filesystem.go:809-849 | For repositories that do not meet, what is written or removed for one changes nothing that is read for the other |
| Layout.ApartRemovalsAreLocal | internal/storage/filesystem.go:320-322 | Nor does the removal of a manifest directory of one |
| Layout.LockFileIsTag | internal/storage/filesystem.go:213-225 | Taking the lock of an accepted name below "tags" of a repository gives that repository an accepted tag with an empty file |
| Layout.UploadsNestExactly | internal/storage/filesystem.go:482-495 | One upload lies below another if and only if the second repository continues the first, its owner and its upload |
| Layout.DotTagIsTheTagDirectory | internal/storage/filesystem.go:809-849 | The tag "." is accepted, and its cleaned path is a directory above the file of every other tag |
| Layout.PathsAreClean | internal/storage/filesystem.go:809-812 | Nothing in the other paths of the layout is cleaned away by Join |
| Layout.PathsInWords | internal/storage/filesystem.go:105-123 | The path of each kind of file as a text |
| Layout.TextsAreDistinct | internal/storage/filesystem.go:809-820 | The joined path texts are as distinct |
| Layout.CapIsPerRepositoryAndOwner | internal/storage/filesystem.go:517-551 | The directory the cap counts belongs to exactly one repository and owner, for any repository and any owner without a slash |
| Layout.WriteIsLocal | internal/storage/filesystem.go:809-849 | Writing one thing changes the reading of that thing alone |
| Layout.ManifestRemovalIsLocal | internal/storage/filesystem.go:742-746 | Removing a manifest's directory removes its content and media type and nothing else |
| Layout.WalkFindsRepositories | internal/storage/filesystem.go:698-709 | The garbage collector's walk stops exactly at the manifest directories of repositories and works on the repository each belongs to |
| Collector.CollectionIsPerRepository | internal/storage/filesystem.go:698-757 | On any disk a collection removes, of the files of a repository without a component "manifests", exactly those of its manifests that are old enough and that no tag file of it names |
| Collector.ReferencedMeans | internal/storage/filesystem.go:759-780 | The referenced digests are the trimmed texts of the files in the tag directory on that disk |
| Collector.TagsSurvive | internal/storage/filesystem.go:698-757 | A collection takes no tag of such a repository, so the order in which repositories are visited does not matter |
| Collector.CollectsManifestsExactly | internal/storage/filesystem.go:698-757 | The collector takes each manifest for itself and nothing else for one if and only if no component of the repository's name is "manifests" |
| Collector.TakesMore | internal/storage/filesystem.go:727-747 | Otherwise what it may remove in place of a manifest is a directory strictly above it |
| Collector.TagsAreCollected | internal/storage/filesystem.go:727-747 | A repository one level below a directory "manifests" of another loses all its tags to a collection that finds their directory old |
| Collector.HaltsExactly | internal/storage/filesystem.go:702-711 | The walk meets a directory it has no repository for, and fails, exactly for names that begin with "manifests" |
| Layout.MigrationNamesExactly | internal/storage/filesystem.go:396-415 | For every accepted name the migration picks the content of a manifest up, for the right repository if and only if no component past the first is "manifests" |
| Layout.MigrationFinds | internal/storage/filesystem.go:396-415 | Over the files of the other repositories the walk picks exactly the contents of manifests, each for its repository |
| Layout.ReservedNamesAlias | internal/storage/filesystem.go:1018-1052 | Every accepted name has another accepted name whose lock file is the file of an accepted tag of the first |
| Blobs.ManifestBlobDigests | internal/storage/filesystem.go:920-944 | The loop computes the list of the specification |
| Blobs.BlobDigestsExact | internal/storage/filesystem.go:920-949 | The list holds each distributable blob the manifest names, once, and nothing else |
| Blobs.BlobStore.CommitBlobFromUpload | internal/storage/filesystem.go:627-667 | Stores the content under a digest it matches, or changes nothing |
| Blobs.BlobStore.EnterRepository | internal/storage/filesystem.go:213-224 | Makes the directory of a repository, unless a file of a link is in its way |
| Blobs.BlobStore.HasRepositoryBlob | internal/storage/filesystem.go:371-383 | Answers whether there is the file of the link, or a directory in its place |
| Blobs.BlobStore.LinkRepositoryBlob | internal/storage/filesystem.go:346-369 | Links an existing blob to the repository, unless a directory is in the place of the link, or leaves the links as they were |
| Blobs.BlobStore.DeleteRepositoryBlob | internal/storage/filesystem.go:332-344 | Removes the repository's own link and nothing else |
| Blobs.BlobStore.ReadBlob | internal/httpserver/server.go:316-370 | What a pull is answered with matches its digest and is linked to the repository, or seems so for a directory in the place of the link; it is linked if the repositories there are do not meet this one |
| Blobs.TakenMeets | internal/storage/filesystem.go:371-383 | A directory in the place of a link is that of a repository that meets the one of the link |
| Blobs.DirectoryCountsAsLink | internal/storage/filesystem.go:371-383 | For every repository and digest there is an accepted name whose directory passes for the link |
| Blobs.BlobStore.LinkManifestBlobs | internal/storage/filesystem.go:418-429 | Links every listed blob that exists; a digest that does not parse stops it |
| Blobs.BlobStore.MigrateRepositoryBlobLinks | internal/storage/filesystem.go:385-435 | Runs once over the files below the root; ends with all links made, or stops early with some of them |
| Blobs.StoreStaysIntact | internal/storage/filesystem.go:332-435 | After any run each blob matches its digest, and each link has its blob and no directory in its place |
| Blobs.BlobsOnlyGrow | internal/storage/filesystem.go:627-667 | Without hash collisions a stored blob is never lost and never changes |
| Blobs.OtherRepositoriesKeepTheirLinks | internal/storage/filesystem.go:332-369 | No operation on one repository changes the links of another |
| Blobs.MigrationIsExact | internal/storage/filesystem.go:385-435 | Whatever lies on the disk, a finished migration links a blob to a repository exactly if it was linked before, or exists, has no directory in its place, and a file the walk picks for the repository names and distributes it |
| Blobs.MigrationFollowsTheLayout | internal/storage/filesystem.go:396-435 | On a disk laid out for repositories without a later "manifests" these are exactly the manifests stored for the repository |
| Names.SplitJoin | internal/storage/filesystem.go:1018-1029 | Splitting a joined list of components gives the components back |
| Names.PathIsCanonical | internal/storage/filesystem.go:1018-1029 | The directory of a repository is a name for itself |
| Names.PathsExactly | internal/storage/filesystem.go:1018-1029 | A name is accepted exactly if it is slashes around a path without empty or single-dot components and without two dots together, and that path is its directory |
| Names.TagsExactly | internal/storage/filesystem.go:1042-1052 | A tag is accepted exactly if it is a text of letters, digits, dots, underscores and dashes without two dots together |
| Names.DigestsExactly | internal/storage/filesystem.go:851-868 | A digest is accepted exactly if it is sha256 or sha512, a colon, and 64 or 128 lower-case hexadecimal digits |
| Names.TagsAreNotDigests | internal/storage/filesystem.go:851-868 | No accepted tag reads as a digest and no digest as a tag |

## Left out

- ManifestStore.Filesystem.CollectGarbage: the walk visits the repositories one after the other in any order; nested directories are the subject of the collector module instead.
- ManifestStore.Filesystem.LinkManifestTag: supposes that the temporary file of a failed link is removed; one that stays is listed, read and counted as a tag without a row.
- TagAgreement.FilesMatchRowsExactly: supposes the same of every link and rollback write.
- Database.Store.DashboardSummary: the columns about users and usage counters are not part of it.
- TagRuns.FilesMatchRowsAtRest: speaks of moments at which the repository lock is free; reads that take no lock can see a delete or a link half-done.
- UploadServer.Uploads.HandleUploadStart: one uninterrupted execution; interleavings are the subject of the session machine, whose steps it returns.
- UploadServer.Uploads.HandleChunk: usage counters, audit events and the link of the committed blob are not part of it; the link is in the blob store.
- AuthLimiter.AuthAttemptLimiter.Allow: trimming and lower-casing the user name is a parameter.
- Pagination.FollowingLinksIsComplete: names are ordered by character, as byte order agrees with for valid UTF-8; the escaping of the query is not modelled.
- UploadAppend.AppendUpload: the size the caller read is the size of the file, which the session machine proves of every caller.
- Crashes: a call on the disk can fail, but no step stands for the process dying, and SQLite transactions are atomic.
- The tables are kept partitioned by repository name, so statements over all rows appear only in the dashboard.
- Hash functions, random identifiers, tokens and passwords, JSON parsing and regular expressions, which are parameters or absent.
- HTTP headers and status codes, templates, audit events, webhooks, usage counters, configuration, and address parsing.
- The channel that bounds concurrent password checks, referrer lists, and the list of tags of a push, which would add only easy members.
- Retention of the children of an index and of referrers: garbage collection keeps only what tags name, and no more is claimed.
