# Verified models of netfin, d3des, webauthn, minimdnsd and geo-sni-proxy

Five pieces of the repository are modelled in Dafny, each in its own group of modules.

**The netfin mirror** (`Paths`, `FileTree`, `Walk`, `RecordOrder`, `Mirroring`, `MirrorFacts`, `Reconciling`, `Settling`,
`Collapsing`, `Clashing`, `Covering`, `Stalling`, `Dropping`, `Racing`, `Running`, `Trusting`, `Succeeding`, `Tearing`,
`SafeCopy`, `Recovering`, `Restoring`, `Syncing`, `DryRunning`, `Exclusion`, `MirrorLimits`). A file system is a finite tree from paths
to nodes. `Mirroring` says what each operation does to the backup tree and the record of known metadata; the class
`Syncing.Syncer` does it with loops, queues and walks and is proved to agree. The main results: a deep reconcile leaves
exactly the mirror and fails exactly on a clash of kinds; the light one agrees with it exactly when every stray path is
recorded; flushing a collapsed queue equals flushing the whole one exactly under conditions that can be told before the
flush, on the exclusion and on what a kept tree that fails leaves to do; with the source changing between any two steps,
matching metadata still means matching contents; after any such run, over whatever records failures have left behind, a
deep or light reconcile over a source at rest succeeds and leaves an exact mirror exactly under named conditions on the
record and the two trees; and a power failure at any step of an atomic copy, whatever else is in flight, leaves the old
possibilities or the new file, from which the next start recovers the mirror. The standing hypotheses are named
predicates: `Setting` (not a dry run, the source is a tree, no directory shows the metadata of a file), `Coherent` (every
record is backed), `FaithfulMirror` (metadata determine contents: equal mode, size and time, or equal mode and time under
a matching record), `Closed` (what is below an excluded path is excluded). The racing machine asks in their place for
fresh times on changed files, and `Inv` is what holds in all its states.

**DES** (`Des`, `DesKeys`, `DesModes`, `DesMachine`, `DesRegisters`, `DesDevice`, `DesPassword`, `DesStandard`,
`DesPermutations`, `DesSchedules`, `DesConforms`, `DesTriple`, `VncPassword`). `Des` is the algorithm on 32-bit words
with arbitrary lookup tables; the array code runs on 64-bit words, as `unsigned long` has on the usual platforms, and is
proved to refine it. `DesStandard` writes FIPS 46-3 down on single bits: IP and its inverse, the expansion E, the key
schedule with its permuted choices and shifts, the sixteen rounds. The code computes exactly that, for every key, mode,
block and lookup tables, once the bits of every key byte are reversed, as this version of the code does. Decryption
inverts encryption in all key lengths and block modes, and the complementation property holds.

**CBOR, authenticator data and DER** (`Octets`, `Cbor`, `CborDecoder`, `CborRoundTrip`, `CborValues`, `AuthData`,
`AuthDataWire`, `Der`). The decoder accepts exactly the definite-length encodings of RFC 8949 within PHP's integer range
and gives each the value it stands for; reading authenticator data inverts writing it; DER output is shortest and
self-delimiting, and a reader finds in it the identifiers and numbers of the key.

**mDNS** (`DnsNames`, `DnsMessages`, `DnsResponses`). Names with compression pointers are read exactly when some
spelling with at most ten hops gives them; a query is answered exactly when it asks the host for a family in which the
interface has an address to offer, and then with these addresses; responders never answer one another.

**SNI** (`Sni`, `SniWire`). A server name is found exactly in the messages that carry one.

The model follows the code where a reader might expect otherwise: `_readExtensionData` checks the extension but its result is
not stored; the CBOR decoder checks a map key only after it has read the value; `_der_unsignedInteger` of an empty
string writes an integer without contents; a completed atomic copy is not durable when it had to create its directory;
a bare five-byte handshake record makes `parseSNI` read past its end.

External parts are parameters: the umask and the metadata a directory shows (`Env`), the glob matcher, the names and
times `os.CreateTemp` picks and the failure of any system call, PHP's loose comparison where it is not plain, and
lower-casing beyond ASCII.

## Model

| member | source | states |
|---|---|---|
| `Paths.StringUnderIsComponentUnder` | netfin/internal/filesync/sync.go:719-721 | the string prefix test on rendered paths (equal, or prefix followed by a slash) holds exactly when one path lies under the other component by component |
| `Paths.AncestorSortsFirst` | netfin/internal/filesync/sync.go:736-744 | in byte order of the rendered strings a path comes before everything below it, so one pass over the sorted queue sees a tree before its contents |
| `Paths.StrLessExactly` | netfin/internal/filesync/sync.go:740-744 | the order of the queue told from the strings alone: one is a proper prefix of the other, or has the smaller character where they first differ |
| `Walk.VisitsMeaning` | netfin/internal/filesync/sync.go:283-327 | the walk, with its skipped directories and links, reaches exactly the paths below the start that no skipped ancestor hides |
| `Walk.VisitsParentsFirst` | netfin/internal/filesync/sync.go:283-327 | the walk takes every directory before what is in it and nothing twice |
| `Walk.VisitsInOrder` | netfin/internal/filesync/sync.go:283-327 | the walk is depth first and takes the entries of every directory in byte order of their names |
| `FileTree.MkdirAllMeaning` | netfin/internal/filesync/sync.go:500-510 | MkdirAll succeeds exactly when nothing on the way is a non-directory; it then adds the missing ancestors and changes nothing else |
| `MirrorFacts.SyncDirGood` | netfin/internal/filesync/sync.go:472-482 | syncing a directory keeps every record backed by a matching backup object and touches nothing outside the path but missing ancestors |
| `MirrorFacts.CopyRelGood` | netfin/internal/filesync/sync.go:512-536 | copying a file keeps the records backed, leaves the current state recorded on success and touches nothing else |
| `MirrorFacts.RemoveGood` | netfin/internal/filesync/sync.go:484-498 | removing a path removes its whole subtree from backup and record together and always succeeds for a recorded path |
| `MirrorFacts.CreatedMeaning` | netfin/internal/filesync/sync.go:500-510 | a created directory has exactly those bits of the mode asked for that the umask leaves |
| `MirrorFacts.PruneByWalkGood` | netfin/internal/filesync/sync.go:538-571 | over backed records pruning by walking the destination keeps the records backed, and exactly the records of live paths stay |
| `MirrorFacts.PruneByStateIs` | netfin/internal/filesync/sync.go:577-600 | over any record: if pruning by the record goes through, exactly the trees of the unseen records are gone; it goes through where no record lies below a file |
| `MirrorFacts.PruneByStateSucceeds` | netfin/internal/filesync/sync.go:577-600 | over any record it goes through exactly when no topmost unseen record lies below something that is not a directory |
| `RecordOrder.InsertSorts` | netfin/internal/filesync/sync.go:701-717 | inserting the recorded paths one by one gives the one order by depth and then by bytes |
| `RecordOrder.OrderMeaning` | netfin/internal/filesync/sync.go:701-717 | in that order a recorded path comes before all below it, and paths of one depth stand in byte order |
| `Reconciling.SeenMeaning` | netfin/internal/filesync/sync.go:283-327 | the paths seen by the source walk are exactly the included ones |
| `Reconciling.DeepReconcileMirrors` | netfin/internal/filesync/sync.go:280-339 | from any backup of plain files and directories in which equal mode, size and time mean equal contents, and over any backed records, a deep reconcile succeeds exactly when no included path is a directory on one side and a file on the other; it then leaves exactly the mirror, and whatever it leaves can be trusted by the next one |
| `Reconciling.DeepReconcileIsExact` | netfin/internal/filesync/sync.go:280-339 | after success the backup holds the included source paths and no others, files equal in contents, mode and time, and the record covers exactly the backup |
| `Reconciling.LightReconcileLeaves` | netfin/internal/filesync/sync.go:329-338 | a light reconcile succeeds when the deep one does and leaves the same tree plus exactly the stray paths that no record covers |
| `Reconciling.LightEqualsDeep` | netfin/internal/filesync/sync.go:329-338 | light and deep reconcile end in the same backup and record if and only if every backup path that lost its source is covered by a record; a record of every backup path is enough |
| `Settling.SyncTreeSettles` | netfin/internal/filesync/sync.go:385-470 | a successful tree sync leaves everything below the root up to date and nothing stale recorded there |
| `Settling.SyncRelIdle` | netfin/internal/filesync/sync.go:341-383 | below a settled tree syncing a single path changes nothing |
| `Settling.SyncTreeIdle` | netfin/internal/filesync/sync.go:385-470 | below a settled tree syncing a tree changes nothing |
| `Collapsing.SortAscending` | netfin/internal/filesync/sync.go:740-744 | the queue ends up strictly ascending in byte order |
| `Collapsing.CollapsePending` | netfin/internal/filesync/sync.go:736-759 | the two nested loops compute the collapsed queue: entries without a kept tree above them, in order |
| `Clashing.SyncTreeClear` | netfin/internal/filesync/sync.go:385-470 | with no clash of kinds on the way to the tree or below it, a tree sync fails exactly when something on the way is not a directory |
| `Clashing.SyncTreeKinds` | netfin/internal/filesync/sync.go:385-470 | no tree sync brings a clash about: what is there afterwards has the kind it had before or the kind it has in the source |
| `Clashing.FlushCollapsedWithoutClashes` | netfin/internal/filesync/sync.go:253-278 | the same equality from conditions that can be checked before the flush: at, above and below the queued trees no clash of kinds, each of them can be looked up, exclusion closed downwards |
| `Clashing.ClashFailsTree` | netfin/internal/filesync/sync.go:385-470 | an included path below the tree that clashes makes the tree sync fail before it prunes, and goes on clashing |
| `Covering.KeptTreeStandsAlone` | netfin/internal/filesync/sync.go:736-759 | beside a kept tree the collapsed queue holds nothing below it and no tree above it |
| `Covering.ClashBreaksCollapsing` | netfin/internal/filesync/sync.go:253-278 | for every queue: with a clash below a kept tree, every recorded path queued below it that lost its source is forgotten by the whole queue and stays recorded under the collapsed one |
| `Stalling.WalkMatches` | netfin/internal/filesync/sync.go:385-470 | a tree walk over backed records leaves a path recorded as up to date exactly if it was so before or the walk comes to it before anything that clashes |
| `Stalling.FlushOneStill` | netfin/internal/filesync/sync.go:253-278 | where below a root no record has lost its source and every path is recorded as up to date or blocked by a clash, no entry below that root, single path or tree, changes anything |
| `Dropping.FailedIsStill` | netfin/internal/filesync/sync.go:385-470 | a tree sync that fails leaves such a state exactly if, before it, no record below had lost its source and every path below was recorded, came before the first clash, or lay at or behind a clash |
| `Dropping.FlushCollapsedDroppable` | netfin/internal/filesync/sync.go:253-278 | a queue of any number of trees and paths ends the same when collapsed, also where kept trees fail, if every kept tree is droppable, a condition on source, backup and record before the flush |
| `Dropping.CollapsingExactly` | netfin/internal/filesync/sync.go:253-278 | that condition is exact: the queues whose kept trees are among some roots may all be collapsed if and only if each of these roots is droppable |
| `Racing.NextInv` | netfin/internal/filesync/sync.go:512-571 | every single step - source changes, look-up of any path that is not itself excluded, read, rename, remember, remove, forgetting a tree or one record, failure, restart, power loss - keeps the invariant that ties records and backup files to versions the source really had |
| `Racing.ReachableInv` | netfin/internal/filesync/sync.go:280-536 | the invariant holds after every run |
| `Racing.MatchingMetadataMeansMatchingContents` | netfin/internal/filesync/sync.go:512-536 | in every state of every run, with the source changing between look-up, copy and remember and each change giving a fresh time, a record or a backup time equal to the current source metadata means equal contents |
| `Running.SyncRelIsARun` | netfin/internal/filesync/sync.go:341-383 | left undisturbed, over any plain backup and any record, syncing one path - skipping, adopting, making a directory, copying, removing - is a run of the racing machine with the same backup and record |
| `Running.SyncTreeIsARun` | netfin/internal/filesync/sync.go:385-470 | so is syncing a tree, in any state a run can reach and under any exclusion, errors included |
| `Running.ReconcileIsARun` | netfin/internal/filesync/sync.go:280-339 | so is a whole reconcile, deep or light, pruning over any record included |
| `Running.FlushIsARun` | netfin/internal/filesync/sync.go:253-278 | so is flushing any queue |
| `Running.SessionIsARun` | netfin/internal/filesync/sync.go:253-571 | after any run: single syncs, tree syncs, reconciles and flushes in any order, with any changes of the source that give changed files fresh times and any restarts between them, end in the backup and record of some run, so what holds in every reachable state holds after them |
| `Trusting.WalkExactly` | netfin/internal/filesync/sync.go:283-327 | from any plain backup and any record, after a walk that succeeds every included path is in place if and only if every matching file record was backed exactly and every matching directory record had its directory or something unmatched below it |
| `Trusting.UntornIsTrusted` | netfin/internal/filesync/sync.go:512-536 | after any run the records are good enough, unless a backup object was changed without its record and that old record matches the source again |
| `Trusting.QuietReconcileExactly` | netfin/internal/filesync/sync.go:280-339 | after any run, over a source at rest, a reconcile that succeeds leaves an exact mirror if and only if the matching records are good enough and, for a light one, every stray backup path is covered by a record |
| `Succeeding.WalkSucceeds` | netfin/internal/filesync/sync.go:283-327 | over any plain backup and any record a walk succeeds exactly when no clash lies at or above a path that the record does not call up to date |
| `Succeeding.ReconcileSucceeds` | netfin/internal/filesync/sync.go:280-339 | so does a deep reconcile; a light one in addition needs that no topmost stray record lies below something that will not be a directory |
| `Succeeding.TrustedReconcileIsExact` | netfin/internal/filesync/sync.go:280-339 | from any plain backup and any record in which every entry that matches the source is backed, a deep reconcile succeeds exactly when no kinds clash and then leaves an exact mirror |
| `Succeeding.QuietReconcileSucceeds` | netfin/internal/filesync/sync.go:280-339 | when a reconcile succeeds after any run, over whatever records failed directory syncs have left behind |
| `Succeeding.QuietReconcileIsExact` | netfin/internal/filesync/sync.go:280-339 | after any run a reconcile over a source at rest succeeds and leaves an exact mirror if and only if the way is clear to all that is not recorded as up to date, the matching records are good enough and, for a light one, every stray path is covered by a record and no such record is stuck |
| `Succeeding.UntornReconcileIsExact` | netfin/internal/filesync/sync.go:280-339 | where no record left behind by a failed directory sync matches the source, a deep reconcile needs only that no kinds clash |
| `Succeeding.UntornReconcileSucceeds` | netfin/internal/filesync/sync.go:280-339 | after any run in which no directory sync failed, deep and light reconcile succeed exactly when no kinds clash |
| `Tearing.FailedSyncLeavesWrongMode` | netfin/internal/filesync/sync.go:512-536 | a run in which a directory sync fails after a rename and the mode is set back: every later reconcile succeeds and leaves the wrong mode |
| `Tearing.FailedSyncLosesDirectory` | netfin/internal/filesync/sync.go:484-491 | a run in which a directory sync fails after a removal and the empty directory is made again: every later reconcile succeeds and the directory stays away |
| `SafeCopy.AtomicCopyFile` | netfin/internal/safeio/copy.go:11-57 | step by step over a disk with any unsynced data and names: in every intermediate state every power failure leaves what it might have left before the copy, the complete new file, the temporary file or a new directory on the way, and no name is lost that could not be lost before; running processes see exactly the file replaced after success, and after a failure that, or new directories on the way and at most the temporary file; a tree stays a tree |
| `SafeCopy.RemoveTemp` | netfin/internal/safeio/copy.go:29-32 | the deferred clean-up takes away the temporary name and keeps the copy recoverable |
| `SafeCopy.MidwayIsSafe` | netfin/internal/safeio/copy.go:11-57 | the invariant of the copy is strong enough for that |
| `SafeCopy.RecoveredFromClean` | netfin/internal/safeio/copy.go:11-57 | with nothing in flight before, that is the complete old or the complete new file, everything else untouched, and at most one stray file |
| `SafeCopy.DurableExactly` | netfin/internal/safeio/copy.go:46-57 | a completed copy survives every power failure if and only if every directory on the way to it is settled |
| `SafeCopy.DoneIsDurable` | netfin/internal/safeio/copy.go:46-57 | if the way to it was settled before the copy, a completed copy survives every power failure and the temporary name is gone |
| `SafeCopy.DoneMayVanish` | netfin/internal/safeio/copy.go:69-82 | if the copy had to create its directory, whose own name is never synced, some power failure undoes the completed copy |
| `Recovering.CrashThenReconcileIsExact` | netfin/internal/filesync/sync.go:329-332 | power fails at any point of a copy begun on a disk with anything in flight; the next start reconciles deeply without a record; it succeeds exactly when no kinds clash, and then mirror and absence of the stray file are restored |
| `Recovering.MidwayFaithful` | netfin/internal/safeio/copy.go:11-57 | copies may follow one another, completed or not: each leaves the disk as trustworthy as it found it |
| `Recovering.NameChangeFaithful` | netfin/internal/filesync/sync.go:500-510 | directories made and trees removed without any sync in between keep it so too |
| `Recovering.CrashSurvives` | netfin/internal/safeio/copy.go:11-57 | such a power failure is one of the power losses the running syncer is shown to withstand; the new version need be known only once the target may lead to it |
| `Restoring.RestoreWalk` | netfin/internal/restore/restore.go:43-85 | the walk callback path by path computes the restore function, or stops at its first error |
| `Restoring.RestoreFilesExact` | netfin/internal/restore/restore.go:43-85 | restoring succeeds exactly when no path changes kind, puts every backup file in place and leaves the rest of the target alone |
| `Restoring.RestoreIntoEmpty` | netfin/internal/restore/restore.go:43-85 | a backup whose directory modes respect the umask comes back unchanged in an empty directory |
| `Restoring.BackupThenRestore` | netfin/internal/restore/restore.go:43-85 | source to an empty backup and back into an empty directory returns the included part of the source |
| `Restoring.RestoreDry` | netfin/internal/restore/restore.go:43-85 | a dry restore changes nothing |
| `Syncing.Syncer.Queue` | netfin/internal/filesync/sync.go:244-251 | an entry once queued as a tree stays a tree |
| `Syncing.Syncer.HasStateTree` | netfin/internal/filesync/sync.go:655-666 | found exactly when some record lies at or below the path |
| `Syncing.Syncer.ForgetStateTree` | netfin/internal/filesync/sync.go:686-699 | removes exactly the records at or below the path |
| `Syncing.Syncer.StatePaths` | netfin/internal/filesync/sync.go:701-717 | the recorded paths in the one order by depth and then by bytes |
| `Syncing.Syncer.RemoveBackupPath` | netfin/internal/filesync/sync.go:484-491 | backup subtree and records go together |
| `Syncing.Syncer.RemoveKnownBackupPath` | netfin/internal/filesync/sync.go:493-498 | only what is recorded is removed |
| `Syncing.Syncer.SyncDir` | netfin/internal/filesync/sync.go:472-482 | the object follows the specification of syncing a directory |
| `Syncing.Syncer.CopyRel` | netfin/internal/filesync/sync.go:512-536 | the object follows the specification of copying a file |
| `Syncing.Syncer.Look` | netfin/internal/safeio/path.go:54-80 | the component loop tells a path behind a link, behind a plain file, missing and found apart |
| `Syncing.Syncer.SyncRel` | netfin/internal/filesync/sync.go:341-383 | the object follows the specification of syncing one path |
| `Syncing.Syncer.WalkDir` | netfin/internal/filesync/sync.go:283-327 | the recursive directory walk with its callback does what visiting the specified sequence of paths does, and collects exactly the seen set |
| `Syncing.Syncer.RemoveDeletedFromStateUnder` | netfin/internal/filesync/sync.go:577-600 | the loop over recorded paths, which forgets trees as it goes, follows the specification for any record, stopping at the first error |
| `Syncing.Syncer.RemoveDeletedByWalkingDestination` | netfin/internal/filesync/sync.go:538-571 | the destination walk, which deletes while it walks, leaves exactly the live part of the backup, and of any record what does not belong to a deleted entry |
| `Syncing.Syncer.Reconcile` | netfin/internal/filesync/sync.go:280-339 | for any record the method leaves the backup and record of the reconcile specification, deep until one has succeeded; backed records stay backed |
| `Syncing.Syncer.SyncTree` | netfin/internal/filesync/sync.go:385-470 | for any record the method leaves the backup and record of the tree specification; backed records stay backed |
| `Syncing.Syncer.FlushPending` | netfin/internal/filesync/sync.go:253-278 | the queue is emptied and the collapsed entries are flushed in order, an error ending only its own entry |
| `DryRunning.ReconcileDry` | netfin/internal/filesync/sync.go:280-339 | a dry reconcile, deep or light, over any record and backup succeeds and changes nothing |
| `DryRunning.SyncRelDry` | netfin/internal/filesync/sync.go:341-383 | a dry sync of one path changes nothing and fails exactly where the path lies behind a plain file |
| `DryRunning.SyncTreeDry` | netfin/internal/filesync/sync.go:385-470 | so does a dry sync of a tree |
| `DryRunning.FlushDry` | netfin/internal/filesync/sync.go:253-278 | a dry flush of any queue changes nothing |
| `Exclusion.Excluded` | netfin/internal/filesync/exclude.go:20-47 | the loop over patterns answers exactly whether some pattern excludes the path; the rows below say which paths each kind of pattern excludes |
| `Exclusion.TreePatternMeaning` | netfin/internal/filesync/exclude.go:20-47 | for every directory d and path p, the pattern d/** excludes p if and only if p is d or lies below it |
| `Exclusion.PathPatternMeaning` | netfin/internal/filesync/exclude.go:20-47 | a pattern with a slash that names no tree excludes exactly the paths it matches as a whole |
| `Exclusion.PatternsAddUp` | netfin/internal/filesync/exclude.go:20-47 | a list excludes a path exactly when one of its patterns alone does; the empty pattern excludes nothing, and nothing excludes the root |
| `Exclusion.BaseIsLastComponent` | netfin/internal/filesync/exclude.go:49-55 | the base name of a rendered path is its last component |
| `Exclusion.TreePatternsAreClosed` | netfin/internal/filesync/exclude.go:20-47 | where every pattern names a tree, an excluded path excludes everything below it |
| `Exclusion.BaseNamePatternMeaning` | netfin/internal/filesync/exclude.go:20-47 | a pattern without a slash excludes exactly by the last component or by a match of the whole path |
| `Exclusion.TreePatternsGiveClosed` | netfin/internal/filesync/exclude.go:20-47 | with tree patterns only, that exclusion is closed downwards, the hypothesis of the queue results |
| `Exclusion.BaseNamePatternIsOpen` | netfin/internal/filesync/exclude.go:33-40 | with a base-name pattern it is not |
| `Exclusion.FlushCollapsedUnderTreePatterns` | netfin/internal/filesync/sync.go:253-278 | the queue result for any list of tree patterns |
| `MirrorLimits.EventBeforeDirectory` | netfin/internal/filesync/sync.go:500-536 | a file event inside an unrecorded directory creates that directory in the backup without recording it |
| `MirrorLimits.UnrecordedDirectoryStays` | netfin/internal/filesync/sync.go:577-600 | after that the light reconcile differs from the deep one: the input family outside the condition of the equivalence |
| `MirrorLimits.OpenExclusionBreaksCollapsing` | netfin/internal/filesync/sync.go:736-759 | for every source and backup and every path that is not excluded inside a directory that is: where it can be synced, the whole queue syncs it and the collapsed queue does nothing |
| `MirrorLimits.CollapsibleExactly` | netfin/internal/filesync/sync.go:736-759 | every queue whose kept trees sync may be collapsed if and only if the exclusion is closed downwards on the paths files can have |
| `MirrorLimits.AliasedDirectoryIsTakenForFile` | netfin/internal/filesync/sync.go:602-610 | a backup directory that shows the mode, size and time of the source file is recorded as that file and stays: the input family outside the hypothesis on directory metadata |
| `Des.FinalUndoesInitial` | firefox/vncpwd/d3des.c:343-408 | the closing bit swaps are the opening ones undone, with the halves exchanged |
| `Des.CryptUndo` | firefox/vncpwd/d3des.c:337-410 | under a schedule taken backwards the sixteen rounds cancel, for arbitrary lookup tables |
| `Des.CryptFlips` | firefox/vncpwd/d3des.c:337-410 | complementing block and expanded key words complements the result |
| `DesKeys.SchedulesReversed` | firefox/vncpwd/d3des.c:83-86 | the decryption schedule is the encryption schedule with its pairs in reverse order |
| `DesKeys.DecryptUndoesEncrypt` | firefox/vncpwd/d3des.c:70-128 | decryption inverts encryption for every key, block and lookup table |
| `DesKeys.KeyWordFlips` | firefox/vncpwd/d3des.c:78-125 | a complemented key gives complemented key words, through selection, rotation, packing and regrouping |
| `DesKeys.Complementation` | firefox/vncpwd/d3des.c:70-128 | encrypting the complement of a block under the complement of the key gives the complement of the ciphertext |
| `DesPermutations.InitialConforms` | firefox/vncpwd/d3des.c:343-362 | for every block the exchanges, rotations and masks before the rounds are the permutation IP of FIPS 46-3, with both halves turned left by one place |
| `DesPermutations.FinalConforms` | firefox/vncpwd/d3des.c:387-408 | the steps after the rounds are the inverse of IP on the turned and exchanged halves |
| `DesSchedules.KeyIsMirrored` | firefox/vncpwd/d3des.c:41-42 | with the bit masks of this version the key bits are those of the standard for the key with the bits of every byte reversed |
| `DesSchedules.Pc1Conforms` | firefox/vncpwd/d3des.c:55-59 | the first selection table is permuted choice 1 of the standard |
| `DesSchedules.Pc2Conforms` | firefox/vncpwd/d3des.c:64-68 | the second selection table is permuted choice 2 of the standard |
| `DesSchedules.TotRotConforms` | firefox/vncpwd/d3des.c:61-62 | the rotation totals are the running sums of the single shifts of the standard |
| `DesSchedules.RoundBitConforms` | firefox/vncpwd/d3des.c:78-100 | for every key, selection, rotation by the total and second selection give the bits of the standard's round key, whose halves are shifted round by round |
| `DesSchedules.KeyWordGroups` | firefox/vncpwd/d3des.c:97-125 | packing and regrouping put the eight six-bit groups of the round key into two words, the even ones in the first |
| `DesConforms.FeistelConforms` | firefox/vncpwd/d3des.c:364-386 | for every half, round key and lookup tables the rotations, masks and eight lookups are the cipher function of the standard: expansion E, the key added, one table for each six bits |
| `DesConforms.RoundsConform` | firefox/vncpwd/d3des.c:364-386 | by induction over the rounds, in both modes the rounds of the code are those of the standard on halves turned by one place |
| `DesConforms.CryptConforms` | firefox/vncpwd/d3des.c:70-410 | for every key, mode, block and lookup tables, key schedule and block function together compute DES as FIPS 46-3 defines it, under the key with the bits of every byte reversed |
| `DesPermutations.DesUnique` | firefox/vncpwd/d3des.c:337-410 | that definition leaves one result only, so the code is fixed by it |
| `DesModes.DoubleKeysInverse` | firefox/vncpwd/d3des.c:414-426 | a double-length key loaded in the opposite mode runs the three registers backwards |
| `DesModes.TripleKeysInverse` | firefox/vncpwd/d3des.c:548-571 | a triple-length key loaded in the opposite mode runs the three registers backwards |
| `DesTriple.DoubleConforms` | firefox/vncpwd/d3des.c:414-439 | a double-length key and three passes are triple DES (encrypt, decrypt, encrypt) of FIPS 46-3 with its first half used twice, and its inverse in the other mode |
| `DesTriple.TripleConforms` | firefox/vncpwd/d3des.c:548-571 | a triple-length key gives triple DES with three keys |
| `DesTriple.EqualKeysAreSingle` | firefox/vncpwd/d3des.c:414-571 | where neighbouring parts of a longer key are equal, three passes are single DES under the other part |
| `DesModes.Crypt2Undo` | firefox/vncpwd/d3des.c:441-467 | two blocks with words exchanged between the passes are recovered under inverse registers; the exchange is its own inverse |
| `DesModes.Crypt3Undo` | firefox/vncpwd/d3des.c:603-637 | three blocks with words exchanged between the passes are recovered under inverse registers |
| `DesTriple.ExchangesAreSeams` | firefox/vncpwd/d3des.c:441-637 | between the passes of two and three blocks exactly the two words on either side of every seam between blocks change places |
| `DesModes.LoadStore` | firefox/vncpwd/d3des.c:162-191 | packing undoes unpacking of a block |
| `DesModes.StoreLoad` | firefox/vncpwd/d3des.c:162-191 | unpacking undoes packing of eight bytes |
| `DesTriple.LoadShows` | firefox/vncpwd/d3des.c:162-175 | eight bytes are packed so that the bits of the block are the bits of the bytes in order, most significant first |
| `DesTriple.BytesConform` | firefox/vncpwd/d3des.c:150-159 | on bytes, loading a key and encrypting or decrypting a block is DES as FIPS 46-3 defines it |
| `DesMachine.FvalLow` | firefox/vncpwd/d3des.c:364-386 | one round function on 64-bit words: the low halves are those of the 32-bit function of the low halves |
| `DesRegisters.DesFunc` | firefox/vncpwd/d3des.c:337-410 | on 64-bit words, whatever is in the high halves of block and keys, the low halves of the result are the 32-bit algorithm on the low halves |
| `DesRegisters.Scrunch` | firefox/vncpwd/d3des.c:162-175 | eight bytes become two words in place |
| `DesRegisters.Unscrun` | firefox/vncpwd/d3des.c:178-191 | two words, high halves ignored, become eight bytes at the given place and nowhere else |
| `DesDevice.PermuteKey` | firefox/vncpwd/d3des.c:78-82 | the first loop holds the key bits in the order of the first permutation |
| `DesDevice.Rotate` | firefox/vncpwd/d3des.c:88-97 | the two loops rotate the halves by the total of the round |
| `DesDevice.RawSchedule` | firefox/vncpwd/d3des.c:83-102 | every round's two raw words stand at the place its mode gives them |
| `DesDevice.CooKey` | firefox/vncpwd/d3des.c:107-128 | the raw pairs are regrouped into the words of the schedule |
| `DesDevice.Device.DesKey` | firefox/vncpwd/d3des.c:70-105 | the left register holds the schedule of the key in the given mode, the one shown above to be the schedule of the standard |
| `DesDevice.Device.CpKey` | firefox/vncpwd/d3des.c:130-138 | the left register is copied out word by word |
| `DesDevice.Device.UseKey` | firefox/vncpwd/d3des.c:140-148 | such a copy is loaded back |
| `DesDevice.Device.DesBlock` | firefox/vncpwd/d3des.c:150-159 | the output block is the encrypted input block, also in place |
| `DesDevice.Device.Des2Key` | firefox/vncpwd/d3des.c:414-426 | the three registers hold the double-length key |
| `DesDevice.Device.Des3Key` | firefox/vncpwd/d3des.c:548-571 | the three registers hold the triple-length key |
| `DesDevice.Device.Cp3Key` | firefox/vncpwd/d3des.c:573-585 | the three registers are copied out one behind the other |
| `DesDevice.Device.Use3Key` | firefox/vncpwd/d3des.c:587-599 | such a copy is put back |
| `DesDevice.Device.Ddes` | firefox/vncpwd/d3des.c:428-439 | one block through three passes, also in place |
| `DesDevice.Device.D2des` | firefox/vncpwd/d3des.c:441-467 | two blocks through three passes with the words exchanged in between, also in place |
| `DesDevice.Device.D3des` | firefox/vncpwd/d3des.c:603-637 | three blocks likewise, also in place |
| `DesDevice.SingleRoundTrip` | firefox/vncpwd/d3des.c:150-159 | on bytes, a single-length key in the opposite mode undoes the first |
| `DesDevice.DoubleLengthRoundTrip` | firefox/vncpwd/d3des.c:414-467 | on bytes, a double-length key in the opposite mode undoes one-block and two-block encryption |
| `DesDevice.TripleLengthRoundTrip` | firefox/vncpwd/d3des.c:548-637 | on bytes, a triple-length key in the opposite mode undoes one-, two- and three-block encryption |
| `DesPassword.Absorb` | firefox/vncpwd/d3des.c:482-486 | up to eight characters are folded into the key and erased behind |
| `DesPassword.MakeKey` | firefox/vncpwd/d3des.c:469-492 | the key is the hash of the password, the password is erased to its terminator, and all three registers are as they were |
| `DesPassword.PasswordKeyIgnoresHighBits` | firefox/vncpwd/d3des.c:483-486 | only the low seven bits of each character count |
| `DesTriple.FoldedTwice` | firefox/vncpwd/d3des.c:483-486 | folding the same character into the key twice takes it out again |
| `DesTriple.ShortPasswordsDiffer` | firefox/vncpwd/d3des.c:469-492 | passwords of one length up to eight give the same key if and only if the low seven bits of their characters agree |
| `DesTriple.DefaultKeyPattern` | firefox/vncpwd/d3des.c:31-34 | the sixteen bytes of the default key in use count the hexadecimal digits up and then down |
| `VncPassword.EncryptPw` | firefox/vncpwd/vncpwd.c:20-26 | the eight bytes for the file are the password encrypted under the fixed key |
| `VncPassword.DecryptPw` | firefox/vncpwd/vncpwd.c:10-14 | the bytes shown are the file decrypted under the fixed key |
| `VncPassword.FileRoundTrip` | firefox/vncpwd/vncpwd.c:8-26 | what was written is shown again, and what is shown was written |
| `VncPassword.FileIsDes` | firefox/vncpwd/vncpwd.c:8-26 | the file is DES of FIPS 46-3 under the key e84ad660c4721ae0 |
| `Octets.NumberBigEndian` | webauthn/src/WebAuthn/Binary/ByteBuffer.php:112-147 | a number written big-endian in enough bytes is read back |
| `Octets.BigEndianNumber` | webauthn/src/WebAuthn/Binary/ByteBuffer.php:112-147 | bytes read as a big-endian number are written back |
| `Octets.Uint16IsNumber` | webauthn/src/WebAuthn/Binary/ByteBuffer.php:112-121 | a 16-bit field is the number its two bytes stand for, most significant first |
| `Octets.Bytes16IsBigEndian` | minimdnsd/cmd/minimdnsd/main.go:327-352 | a 16-bit field is written as its big-endian bytes |
| `Octets.LowerMeaning` | minimdnsd/cmd/minimdnsd/main.go:89-100 | lower-casing ASCII leaves no capital and changes nothing but capitals into their small letters |
| `CborDecoder.GetUint` | webauthn/src/WebAuthn/Binary/ByteBuffer.php:93-147 | the bounds-checked readers give the big-endian number, an offset error, or, from eight bytes past the largest integer, a range error |
| `CborDecoder.ParseExtraLength` | webauthn/src/WebAuthn/CBOR/CborDecoder.php:130-162 | the argument of a head in its five widths, with the reserved and indefinite cases refused |
| `CborDecoder.ItemAt` | webauthn/src/WebAuthn/CBOR/CborDecoder.php:64-76 | terminates on every byte string with any declared count; success consumes at least one byte and never passes the end |
| `CborDecoder.ItemsFrom` | webauthn/src/WebAuthn/CBOR/CborDecoder.php:212-219 | a declared count is honoured only by consuming at least that many bytes |
| `CborDecoder.PairsFrom` | webauthn/src/WebAuthn/CBOR/CborDecoder.php:196-210 | likewise for maps, the key being checked after its value was read |
| `CborDecoder.ParseItem` | webauthn/src/WebAuthn/CBOR/CborDecoder.php:64-76 | the recursive method computes the specified result for every offset |
| `CborDecoder.ParseItemData` | webauthn/src/WebAuthn/CBOR/CborDecoder.php:164-194 | the dispatch on the major type computes the specified result |
| `CborDecoder.ParseArray` | webauthn/src/WebAuthn/CBOR/CborDecoder.php:212-219 | the filling loop computes the specified result |
| `CborDecoder.ParseMap` | webauthn/src/WebAuthn/CBOR/CborDecoder.php:196-210 | the filling loop computes the specified result; a repeated key keeps its place and takes the new value |
| `CborDecoder.Decode` | webauthn/src/WebAuthn/CBOR/CborDecoder.php:29-38 | one item and nothing after it |
| `CborDecoder.DecodeInPlace` | webauthn/src/WebAuthn/CBOR/CborDecoder.php:46-53 | one item from any offset, negative ones included, with its end |
| `CborRoundTrip.Complete` | webauthn/src/WebAuthn/CBOR/CborDecoder.php:64-219 | every definite-length encoding, minimal or not, with any tags, wherever it stands, decodes to the value it stands for and to its end |
| `CborRoundTrip.Sound` | webauthn/src/WebAuthn/CBOR/CborDecoder.php:64-219 | a successful parse has read exactly one well-formed item and returned its value |
| `CborRoundTrip.DecodesExactlyTheEncodings` | webauthn/src/WebAuthn/CBOR/CborDecoder.php:29-38 | decode returns a value if and only if the bytes are an encoding of it |
| `CborRoundTrip.OnlyTheConsumedBytesMatter` | webauthn/src/WebAuthn/CBOR/CborDecoder.php:46-53 | the result depends on the consumed bytes alone |
| `CborRoundTrip.PrefixFree` | webauthn/src/WebAuthn/CBOR/CborDecoder.php:64-219 | no valid item is a proper prefix of another |
| `CborValues.DistinctKeysInOrder` | webauthn/src/WebAuthn/CBOR/CborDecoder.php:196-210 | a map with distinct keys becomes an array in the order written |
| `CborValues.LastWins` | webauthn/src/WebAuthn/CBOR/CborDecoder.php:196-210 | of several values for one key the last counts, and keys stay distinct |
| `CborValues.KeysExactly` | webauthn/src/WebAuthn/CBOR/CborDecoder.php:196-210 | a text key becomes an integer key exactly when it is how PHP prints an integer in range; any other key stays as it is |
| `CborValues.ArraysInOrder` | webauthn/src/WebAuthn/CBOR/CborDecoder.php:212-219 | an array is listed under 0, 1, 2 and so on |
| `CborValues.DecodedKeysDistinct` | webauthn/src/WebAuthn/CBOR/CborDecoder.php:196-219 | whatever is decoded, an array lists each key once |
| `CborValues.ValueRoundTrip` | webauthn/src/WebAuthn/CBOR/CborDecoder.php:29-38 | every value of integers in range, byte and text strings, false, true, null, floats as their bytes, and nested arrays with keys PHP leaves alone has an encoding that decodes to it |
| `AuthData.Es256Exactly` | webauthn/src/WebAuthn/Attestation/AuthenticatorData.php:297-323 | an ES256 key comes out exactly when the decoded map holds type, algorithm, curve and two 32-byte coordinates, whatever else it holds |
| `AuthData.Rs256Exactly` | webauthn/src/WebAuthn/Attestation/AuthenticatorData.php:331-353 | an RS256 key comes out exactly when the decoded map holds type, algorithm, a 256-byte modulus and a 3-byte exponent |
| `AuthData.NoKeyOutsideArrays` | webauthn/src/WebAuthn/Attestation/AuthenticatorData.php:275-289 | a decoded value that is no array never gives an ES256 or RS256 key |
| `AuthData.EveryKeyIsWritten` | webauthn/src/WebAuthn/Attestation/AuthenticatorData.php:275-353 | every ES256 and RS256 key has an encoding that is read back as that key |
| `AuthData.DerInjective` | webauthn/src/WebAuthn/Attestation/AuthenticatorData.php:185-212 | different public keys have different DER encodings |
| `AuthData.AcceptedKeysDiffer` | webauthn/src/WebAuthn/Attestation/AuthenticatorData.php:185-212 | accepted keys have the sizes the writer needs, and their DER forms are equal exactly when the keys are |
| `AuthDataWire.FlagsAreTheByte` | webauthn/src/WebAuthn/Attestation/AuthenticatorData.php:219-237 | the eight flag bits, written back as a byte, are the byte |
| `AuthDataWire.FlagsMeaning` | webauthn/src/WebAuthn/Attestation/AuthenticatorData.php:219-237 | user present is bit 0 of the byte, user verified bit 2, attested data bit 6 and extension data bit 7, told by division and remainder |
| `AuthDataWire.TooShortExactly` | webauthn/src/WebAuthn/Attestation/AuthenticatorData.php:47-75 | invalid input is reported exactly below 37 bytes; missing attested data exactly from 37 to 55 bytes with bit 6 set |
| `AuthDataWire.ReadingInvertsWriting` | webauthn/src/WebAuthn/Attestation/AuthenticatorData.php:47-75 | for every hash, flags, counter, credential id up to 65535 bytes, key item and optional extension item the constructor recovers every stored field, or reports the key's or the extension's fault |
| `AuthDataWire.OnlyWrittenIsRead` | webauthn/src/WebAuthn/Attestation/AuthenticatorData.php:47-75 | whatever the constructor accepts is the serialisation of such fields; the extension starts where the key item ends |
| `AuthDataWire.ReadAttestData` | webauthn/src/WebAuthn/Attestation/AuthenticatorData.php:246-266 | the offsets of id and key, the key's errors and the end offset |
| `AuthDataWire.AuthenticatorData.Construct` | webauthn/src/WebAuthn/Attestation/AuthenticatorData.php:47-75 | the fields of the object are those parsed, or the exception is the one specified |
| `Der.DerLength` | webauthn/src/WebAuthn/Attestation/AuthenticatorData.php:375-385 | the loop writes the short form below 128 and else the shortest long form |
| `Der.LengthReads` | webauthn/src/WebAuthn/Attestation/AuthenticatorData.php:375-385 | the length written is the length read under section 8.1.3 of X.690, wherever it stands |
| `Der.LengthIsShortest` | webauthn/src/WebAuthn/Attestation/AuthenticatorData.php:375-385 | no other definite form of the same length is as short |
| `Der.DerUnsignedInteger` | webauthn/src/WebAuthn/Attestation/AuthenticatorData.php:403-422 | the loop strips leading zeros down to one byte and prefixes a zero before a set top bit; empty input gives an integer without contents |
| `Der.IntegerDenotes` | webauthn/src/WebAuthn/Attestation/AuthenticatorData.php:403-422 | for non-empty bytes the contents denote their unsigned big-endian value in two's complement |
| `Der.IntegerIsShortest` | webauthn/src/WebAuthn/Attestation/AuthenticatorData.php:403-422 | no shorter contents denote that value |
| `Der.PieceReads` | webauthn/src/WebAuthn/Attestation/AuthenticatorData.php:387-397 | a tagged value is read back with its tag and contents, to its own end |
| `Der.PiecesInjective` | webauthn/src/WebAuthn/Attestation/AuthenticatorData.php:387-397 | what is written determines tag, contents and everything that follows |
| `Der.Ec2Injective` | webauthn/src/WebAuthn/Attestation/AuthenticatorData.php:185-193 | the EC key encoding determines both coordinates |
| `Der.Ec2IsRead` | webauthn/src/WebAuthn/Attestation/AuthenticatorData.php:185-193 | a DER reader finds in every EC key encoding the identifiers 1.2.840.10045.2.1 and 1.2.840.10045.3.1.7 and a bit string with the uncompressed point: 4, x, y |
| `Der.RsaInjective` | webauthn/src/WebAuthn/Attestation/AuthenticatorData.php:199-212 | the RSA key encoding determines modulus and exponent |
| `Der.RsaIsRead` | webauthn/src/WebAuthn/Attestation/AuthenticatorData.php:199-213 | it finds in every RSA key encoding the identifier 1.2.840.113549.1.1.1 with a null, and a bit string around two integers with the values of modulus and exponent |
| `Der.Ec2IsNotRsa` | webauthn/src/WebAuthn/Attestation/AuthenticatorData.php:185-212 | no EC key encoding is an RSA key encoding |
| `DnsNames.LabelsAt` | minimdnsd/cmd/minimdnsd/main.go:102-147 | terminates on cyclic pointers, hops left and then bytes left going down; success ends after the start and within the packet |
| `DnsNames.ParseLabels` | minimdnsd/cmd/minimdnsd/main.go:102-147 | the loop with its recursive call computes the specified labels or error |
| `DnsNames.LabelsExactly` | minimdnsd/cmd/minimdnsd/main.go:102-147 | labels and end are returned if and only if some spelling of the name with at most ten pointer hops gives them |
| `DnsNames.PointerTargetMeaning` | minimdnsd/cmd/minimdnsd/main.go:129-136 | the target of a compression pointer is the low fourteen bits of its two bytes, section 4.1.4 of RFC 1035 |
| `DnsNames.ParseName` | minimdnsd/cmd/minimdnsd/main.go:89-100 | the joined, length-checked, lower-cased name and the advanced offset |
| `DnsNames.NameAtExactly` | minimdnsd/cmd/minimdnsd/main.go:89-100 | a name is read if and only if labels are that join to at most 255 bytes |
| `DnsNames.EncodeName` | minimdnsd/cmd/minimdnsd/main.go:205-220 | the loop over the labels computes the specified bytes or error |
| `DnsNames.EncodableExactly` | minimdnsd/cmd/minimdnsd/main.go:205-220 | a name is encoded exactly when every label has 1 to 63 bytes and the name at most 254, in two bytes more |
| `DnsNames.JoinSplit` | minimdnsd/cmd/minimdnsd/main.go:205-206 | joining the parts of a split name gives the name |
| `DnsNames.SplitParts` | minimdnsd/cmd/minimdnsd/main.go:205-206 | the labels of a name to be written join to the name and hold no dot |
| `DnsNames.SplitJoin` | minimdnsd/cmd/minimdnsd/main.go:205-206 | labels without dots are the labels of their join |
| `DnsNames.NameRoundTrip` | minimdnsd/cmd/minimdnsd/main.go:89-100 | an encoded name at any offset of any packet is read back lower-cased, to its end |
| `DnsMessages.ParseQuestions` | minimdnsd/cmd/minimdnsd/main.go:149-168 | the loop computes the specified questions or error |
| `DnsMessages.HeaderFields` | minimdnsd/cmd/minimdnsd/main.go:75-87 | the six header fields are the six big-endian numbers of section 4.1.1 of RFC 1035 |
| `DnsMessages.ResponseBit` | minimdnsd/cmd/minimdnsd/main.go:176-179 | a message counts as a response exactly when the top bit of its flags is set |
| `DnsMessages.ParseIntent` | minimdnsd/cmd/minimdnsd/main.go:170-203 | the fold over the questions wants a type exactly when some question asks this name for it or for any |
| `DnsMessages.QuestionsRoundTrip` | minimdnsd/cmd/minimdnsd/main.go:149-168 | questions written one after the other are read back in order |
| `DnsMessages.QueryIsUnderstood` | minimdnsd/cmd/minimdnsd/main.go:170-203 | from any query a client writes, flags below 0x8000, an address type is wanted exactly when some question of class IN or ANY, the top bit apart, names this host in any case of letters and asks for that type or for any |
| `DnsResponses.BuildResponse` | minimdnsd/cmd/minimdnsd/main.go:306-353 | the two loops compute the specified packet, nothing, or an error; the next rows say which addresses it carries |
| `DnsResponses.AnswersOfFours` | minimdnsd/cmd/minimdnsd/main.go:315-323 | four-byte addresses answer type A as they are and never type AAAA |
| `DnsResponses.AnswersOfSixteens` | minimdnsd/cmd/minimdnsd/main.go:315-323 | sixteen-byte addresses that stand for no IPv4 address answer type AAAA as they are and never type A |
| `DnsResponses.AnswersOfOthers` | minimdnsd/cmd/minimdnsd/main.go:315-323 | an IPv4 address in sixteen bytes answers type A with its last four; other lengths and types answer nothing |
| `DnsResponses.UsableIps` | minimdnsd/cmd/minimdnsd/main.go:222-256 | the loop over the interface addresses computes the first three addresses to offer |
| `DnsResponses.OfferedExactly4` | minimdnsd/cmd/minimdnsd/main.go:222-256 | an IPv4 address is offered exactly for itself in four or sixteen bytes, unless it is unspecified, loopback or multicast |
| `DnsResponses.OfferedExactly6` | minimdnsd/cmd/minimdnsd/main.go:222-304 | an IPv6 address is offered exactly for itself, unless it is unspecified, loopback, link-local, multicast or stands for an IPv4 address |
| `DnsResponses.UsableAreAnnounced` | minimdnsd/cmd/minimdnsd/main.go:222-323 | all that is offered is announced unchanged, at most three in order, and fewer only if no more are offered |
| `DnsResponses.Assemble` | minimdnsd/cmd/minimdnsd/main.go:327-352 | giving up as soon as the packet is too large is giving up exactly when the whole packet would be |
| `DnsResponses.ResponsesAreRead` | minimdnsd/cmd/minimdnsd/main.go:306-353 | every packet sent is at most 9036 bytes, its 16-bit answer count is exact, and it decodes to the addresses of the family in order, to its end |
| `DnsResponses.QueryIsAnswered` | minimdnsd/cmd/minimdnsd/main.go:378-396 | for every responder and every query a client writes: if and only if the query asks the host for the responder's family, or for any, and the interface has an address of that family to offer, sender and group get a packet under the query's id that decodes to exactly these addresses; else nothing is sent |
| `DnsResponses.NoConversation` | minimdnsd/cmd/minimdnsd/main.go:355-398 | in every run of a network of responders every packet was injected or answers an injected one directly |
| `Sni.ParseSni` | geo-sni-proxy/internal/proxy/proxy.go:205-280 | the nested loops compute the specified outcome; every read but the first of the body is in bounds |
| `Sni.ParseNameList` | geo-sni-proxy/internal/proxy/proxy.go:253-276 | the inner loop finds the first host name before the end of the list |
| `Sni.PanicsExactly` | geo-sni-proxy/internal/proxy/proxy.go:206-216 | the unchecked read goes out of range exactly on a five-byte handshake record of length zero |
| `SniWire.NameIsFound` | geo-sni-proxy/internal/proxy/proxy.go:205-280 | a message with a host name gives it, whatever precedes and follows |
| `SniWire.FoundIsName` | geo-sni-proxy/internal/proxy/proxy.go:205-280 | whenever a name is found the bytes are such a message |
| `SniWire.FoundExactly` | geo-sni-proxy/internal/proxy/proxy.go:205-280 | a name is found if and only if the message carries it |
| `SniWire.ClientHelloGivesItsName` | geo-sni-proxy/internal/proxy/proxy.go:205-280 | every ClientHello whose lengths nest as the RFCs say gives its host name lower-cased, for any session id, cipher and compression lists, earlier extensions and earlier entries of other types |

## Left out

- File system notifications, timers, goroutines and logging of netfin: events enter as queued paths and as steps of the racing model.
- Symbolic links in the destination tree: the destination is assumed to hold plain files and directories only.
- `SafeRel` and `JoinUnder` of netfin/internal/safeio/path.go: paths are already clean component sequences here.
- SQLite replication and restore and the configuration loading of netfin: thin layers over other libraries.
- Dropping.CollapsingExactly: asks that the source holds only files and directories below the kept trees, because a tree sync sweeps devices and sockets out of the backup without looking at the record, and the order of that sweep is not followed.
- Running.SessionIsARun: between the operations, not inside them, the source changes; changes inside an operation are steps of the racing machine itself.
- SafeCopy.AtomicCopyFile: the source file is read as one value; that it may change while it is read is in Racing.
- The contents of the eight tables of d3des.c, S-boxes and permutation P together: arbitrary functions stand for them, in the code and in the standard alike.
- `make2key`, `make3key`, `cp2key` and `use2key` of d3des.c: the same loops over wider blocks.
- Float decoding: a CBOR float is kept as its encoded bytes.
- PEM and base64 wrapping, signatures, certificates and attestation formats of webauthn: decided by OpenSSL and PHP built-ins.
- AuthData.Es256Exactly: the order of several faults in one key is in the specification function only, not in this lemma.
- Host name files, interface selection and sockets of minimdnsd: the addresses of the interface are a parameter of a responder.
- DnsResponses.QueryIsAnswered: the query comes from a subnet of the interface; the filter on the sender's address (`sourceIPMatchesInterface`) is not modelled.
- `NewExcluder` of netfin/internal/filesync/exclude.go: that it trims white space off the configured patterns is not modelled.
- Reading from the connection and proxying in geo-sni-proxy: only the ClientHello parser is modelled.
- Front-end code, container images and deployment scripts.
