# uback: a verified model

`uback` backs up one source to any number of destinations. A backup is full, or incremental on an
earlier snapshot that the source still knows about. Retention policies decide which backups and
snapshots stay, a state file records what was last sent where, and a restoration replays a chain of
incrementals from its full backup on. A mistake in this logic loses data without anyone noticing.

This project models that logic and proves what it promises. `dafny verify dfyconfig.toml` checks
all of it.

## How it is organised

Names and selection, as methods with the loops of the program, each proved equal to a recursive
function, and lemmas about that function:

* `Names`, `Backups`: snapshot names, the instants they denote, file names and how they are parsed.
* `Retention`: the greedy selection of a policy, the union over policies.
* `Chains`: the index of a listing and the walk along bases.
* `Pruning`, `PruningFacts`: candidates, closure over chains, complement; retries and deletion order.
* `SortedListings`: what the policies keep of listings as the program sorts them.
* `SnapshotPruning`, `BaseSelection`: archives and bookmarks; full or incremental, and on what.

The protocol, as a state machine whose events are the single effects of a run (`Protocol.Step`):
open, fill and rename the temporary file, truncate and write the state file, remove one archive, one
bookmark, one backup. A run may stop after any of them, runs for several destinations and with any
options follow each other in any order, and removals may fail. What a run cannot determine (the
clock, the content of the source, listings, which removals succeed) is in the event.

* `Protocol`: the machine and what every step keeps.
* `EndToEnd`: every listed backup restores to the content the source had at its snapshot.
* `SourceSafety`: no destination loses the snapshot its next incremental needs.
* `Incrementality`: over completed runs, from the start or from a full backup on, the next backup is
  incremental on the recorded snapshot.
* `ChainAge`: over completed runs, every incremental was made on a chain young enough at the time.
* `Machine`: class `Uback`, the commands `backup`, `prune backups` and `prune snapshots` as methods
  on the state. Each effect is logged as the event it is, and validity means that the state is where
  the log leads, so the theorems about all event sequences hold of whatever the commands do. Listings,
  the creation of the backup, sending it and writing the state file may each fail.
* `Restore`: class `Target`, the restoration of a chain into a directory, down to renames.
* `Directories`: classes `FsDestination` and `TarSource`, entry by entry. `DirectorySteps`: what
  happens to those entries is what happens in the protocol.
* `TarContents`: what tar archives carry, and when replaying them is exact.

The option language and proxies:

* `Options`: the regular expression that splits option strings against a scanner; escapes.
* `Presets`: class `OptionSet`; recursive evaluation against one fold over flattened pairs.
* `ProxyTypes`: layers of `Proxy` prefixes. `ProxyStream`: the three goroutines behind a stream.

`Wrappers` and `Sequences` hold what all of them use.

## Modelling choices

* A snapshot is its name, its place in byte order and the instant it parses to (milliseconds, or
  nothing). `Backups.SnapshotOrder` says that for genuine names these three agree.
* `Time.Sub` saturates and is modelled in nanoseconds. The comparison with 0.9 times an interval is
  made on floats by the program and on integers here: ten times the difference against nine times
  the interval.
* Contents and payloads are any two types with two operations, what changed between two contents and
  applying it. The only law asked of them is that a change made from a base (an earlier snapshot, or
  nothing) and applied to that base gives the later content back, and it is asked
  of the members of the chain that is restored and of no other (`EndToEnd.LawfulOn`; a codec that is
  right about all pairs meets it, `EndToEnd.LawfulForAll` and `EndToEnd.LawfulForIsOn`). `TarContents`
  says when a tar backup restores, the limitation doc/src-tar.md:5-10 states.
* The state file is missing, recorded, or broken: it is truncated before it is written, and what is
  left in between does not parse. Runs that meet a broken file end.
* Go walks maps in any order. The loops over maps pick any remaining key, and what they compute is
  proved not to depend on the picks; where it does (`ProxyTypes.OrderMatters`) the exact condition is
  given.
* What would make the program loop forever is a precondition: a chain that meets a cycle, presets
  that lead back to themselves. A new snapshot is later than all before it.
* A destination is known by one key, under which the state file records it: destinations have
  different IDs.

Six promises do not hold as they stand. Each has a lemma with inputs that break it and a lemma with
the exact condition under which it holds:

* Splitting at unescaped commas, `Options.EmptyOptionIsNotCut` and `Options.SplitsLikeScanner`: after
  an empty option the next comma is not cut.
* Deleting what is pruned leaves only whole chains, `PruningFacts.FailedRemovalOrphans`,
  `PruningFacts.FailedRemovals` and, told from the plan, `PruningFacts.FailuresAreHarmless`: a removal
  that fails while that of its base succeeds leaves an orphan.
* Restoring takes the payload of the destination, `TarContents.StaleFileIsRestored` and
  `Restore.FullRestoresIffNotStale`, for chains of tar archives
  `TarContents.ChainRestoresIffSameNewest`: a file lying in the target directory under the name of a backup
  is restored in its place. The description of `restore --local` (cmd/restore.go:114) says that local
  files are used with the flag; the code never reads the flag (cmd/restore.go:27), and the model
  follows the code.
* One layer of proxying is a function of the options, `ProxyTypes.CollisionIsSeen` and
  `ProxyTypes.OrderMatters`: two keys that become one make the result depend on the map order
  (`ProxyTypes.PathsCollide`: `Path` and `ProxyPath`).
* The reader of a proxied stream comes to its end, `ProxyStream.FailedCallHangs` and
  `ProxyStream.FinishesIffNotStuck`: the remote ends the data stream as its last act before the call
  succeeds and leaves it open when the call fails (cmd/proxy.go:59-79, 146-156). The copy then waits
  for an end that does not come, the wait group for the copy, and pipe and session stay open.
* A preset is found by the name it was set under, `Presets.BackupsIsNotFound` and
  `Presets.FoundByName`: reading presets trims a set of characters from the file name, not an ending.

## Model

| member | source | states |
|---|---|---|
| Names.NameOrderIsTimeOrder | lib/utils.go:20-28 | For any two names that parse, comparing them byte by byte gives the order of their instants in milliseconds, over month lengths and leap years; equal instants have equal names. |
| Names.CompareIsNumeric | lib/utils.go:73-76 | On strings of one length, byte-wise comparison is comparison of the numbers they spell in any base. |
| Names.FieldOrderIsTimeOrder | lib/utils.go:26-28 | Lexicographic order of valid calendar fields is the order of their milliseconds. |
| Names.GregorianClosedForm | lib/utils.go:26-28 | The day count that instants are made of agrees with the closed form of the Gregorian calendar in every year. |
| Names.MonthClosedForm | lib/utils.go:26-28 | The day count of every month of every year is that of the closed form that begins the year in March, so every month has its length. |
| Names.FieldsAt | lib/utils.go:26-28 | Every millisecond is the instant of valid calendar fields, so no hour, day or month is missing. |
| Names.FormatParses | sources/tar.go:108 | The name written for valid fields of the first ten thousand years is a snapshot name, and parses to their instant. |
| Names.NameAt | lib/utils.go:21-28 | Every millisecond of the first ten thousand years is what some snapshot name parses to. |
| Backups.SnapshotOrder | lib/utils.go:73-76 | Of two genuine snapshots, name order, rank order and time order agree, and rank identifies. |
| Backups.ParseOfPrinted | lib/utils.go:56-66 | Parsing a printed name, full or incremental, with or without its extension, gives the backup back; it fails exactly when a required extension was not printed. |
| Backups.PrintOfParsed | lib/utils.go:120-137 | Whenever a path parses, its last element is the printed name of the result, which is genuine. |
| Backups.FilenameIdentifies | lib/utils.go:63-66 | No two backups share a file name. |
| Backups.WrittenNames | lib/utils.go:55-66 | The file names of full and incremental backups, character by character. |
| Backups.ParseOfPath | lib/utils.go:120-137 | With any directories in front, parsing a file name gives the backup back. |
| Backups.BaseOfPath | lib/utils.go:121 | The last element of a path is its name, whatever directories it is in and however many slashes follow. |
| Backups.BaseOfNothing | lib/utils.go:121 | Of nothing it is a point, and of slashes only it is a slash. |
| Retention.ApplyPolicy | lib/retention.go:119-137 | The loop of one policy adds exactly the greedy selection to what was retained and fails exactly when the selection meets a time that does not parse. |
| Retention.ApplyRetentionPolicies | lib/retention.go:116-140 | The nested loops compute the union of the selections, or fail if any does. |
| Retention.ElapsedIsFar | lib/retention.go:132 | In milliseconds: two instants are far enough apart when ten times their difference is at least nine thousand times the interval in seconds, and beyond the range of a duration when nine tenths of the interval are within it. |
| Retention.SelectionsAreAllowed | lib/retention.go:121-137 | What the loop may select: parts of the subjects, all of them full when the policy is for full ones, with parsing times, each far enough from the one before. |
| Retention.FailsIff | lib/retention.go:122-131 | A policy fails if and only if, before it is full, it comes to a subject it takes whose time does not parse. |
| Retention.RetainedFailsIff | lib/retention.go:116-140 | Policies fail together if and only if one of them does. |
| Retention.GreedyIsOptimal | lib/retention.go:116-140 | Over subjects listed most recent first, the picks are a selection the policy allows, no allowed selection has more members, and the i-th pick is at least as recent as the i-th of any allowed selection. |
| Retention.StaysAhead | lib/retention.go:121-137 | The exchange argument for any point of the loop: a run that is ahead of another selection stays ahead of it pick by pick. |
| Retention.WhyLeftOut | lib/retention.go:121-137 | An eligible subject that is not picked is older than a full set of picks, or too close to a more recent pick. |
| Retention.GreedyIsStable | lib/retention.go:121-137 | Taking away subjects that were not picked leaves the picks unchanged. |
| Retention.RetainedIsStable | lib/retention.go:116-140 | The same for the union over all policies. |
| Retention.RetainedIsUnion | lib/retention.go:116-140 | A name is retained exactly when some policy picks a subject of that name. |
| Retention.NewestIsPicked | lib/retention.go:121-137 | A policy that takes incrementals and has room for one retains the most recent subject. |
| Chains.MakeIndex | lib/utils.go:191-197 | The index in which the last backup of a name wins. |
| Chains.IndexOfMembers | lib/utils.go:190-197 | The index holds only listed backups, under their own names, a name for every listed backup, and that very backup when names differ. |
| Chains.LastWins | lib/utils.go:191-197 | The last backup listed with a name is the one indexed under it. |
| Chains.IndexedIsLast | lib/utils.go:191-197 | And every indexed name is that of such a backup. |
| Chains.GetFullChain | lib/utils.go:202-213 | On any walk that ends, the chain is the whole walk along bases, and ok holds exactly when it reaches a full backup. |
| Chains.ChainIsUnique | lib/utils.go:199-213 | A backup has at most one chain. |
| Chains.ChainSuffix | lib/utils.go:199-201 | The chain of each member of a chain is the rest of it. |
| Chains.ChainLength | lib/utils.go:205-211 | A chain is at most one longer than the index. |
| Chains.WalkEndsIffNoCycle | lib/utils.go:205-211 | The walk from a backup ends if and only if it meets no cycle. |
| Chains.OlderBasesEnd | lib/utils.go:205-211 | When bases are older than what is built on them, every walk ends. |
| Chains.NamesDecrease | lib/utils.go:205-211 | And names strictly decrease along it. |
| Chains.RestorableStep | lib/utils.go:199-201 | A backup is restorable exactly when it is full or its base is indexed and restorable. |
| Pruning.CollectCandidates | lib/retention.go:147-154 | The first loop keeps, in listing order, exactly the backups with a whole chain, and the chain of the last listed of those that share a snapshot. |
| Pruning.WithChains | lib/retention.go:167-175 | For any order of the map, the set ends up holding exactly the names met on the way from where a retained name starts to its root. |
| Pruning.Complement | lib/retention.go:177-182 | The third loop keeps the order of the listing and leaves out exactly the retained names. |
| Pruning.GetPrunedBackups | lib/retention.go:143-185 | The whole method equals its specification, also for listings in which backups share a snapshot: nothing without policies, a failure when a policy fails, otherwise the listing without what is met from the retained ones. |
| Pruning.SurvivorsFit | lib/retention.go:177 | What is retained is never more than what is listed, so the capacity computed from both is not negative. |
| PruningFacts.DistinctPlan | lib/retention.go:167-184 | When no two backups share a snapshot, what is pruned is the listing without the survivors. |
| PruningFacts.CandidatesAre | lib/retention.go:147-154 | The policies see exactly the backups with a whole chain, in listing order, full ones as full and incrementals as not. |
| PruningFacts.PrunedIff | lib/retention.go:162-184 | A listed backup is pruned if and only if there are policies and it is on the chain of no backup that one of them picks. |
| PruningFacts.PlanFailsIff | lib/retention.go:162-165 | A plan fails if and only if some policy does. |
| SortedListings.CandidatesDescend | lib/utils.go:78-90 | The candidates of a listing sorted by name are in the order of time the retention loop relies on. |
| SortedListings.ArchivesDescend | lib/utils.go:92-104 | So are archives sorted by name. |
| SortedListings.PicksAreBest | lib/retention.go:121-137 | Over subjects in descending time the picks are an allowed selection, and pick by pick at least as many and as recent as those of every other; what is allowed is told by kind and milliseconds. |
| SortedListings.LeftOutIsPassed | lib/retention.go:121-137 | A subject not picked is not full where only full ones are taken, has no time, is too close to a more recent pick, or older than a full set of picks. |
| SortedListings.PruningIsOptimal | lib/retention.go:143-185 | Of a sorted listing every policy has the best selection it allows, of which nothing is pruned; a backup with a whole chain is only pruned when every policy passed it over for too close a pick or a full set of picks. |
| SortedListings.ArchivePruningIsOptimal | lib/retention.go:188-236 | The same for archives. |
| PruningFacts.PrunedAndKeptPartition | lib/retention.go:177-184 | What is pruned and what is kept partition the listing, each in its order. |
| PruningFacts.SurvivorsAreLeastClosed | lib/retention.go:167-182 | The survivors are the least set that holds what is retained and the base of each of its members; each has a whole chain, so no orphan survives. |
| PruningFacts.OrphansArePruned | lib/retention.go:148-182 | With at least one policy, a backup without a whole chain is pruned. |
| PruningFacts.RetryConverges | lib/retention.go:143-185 | After any subset of the removals, pruning what is left with the same policies gives exactly the rest, in order. |
| PruningFacts.PruningIsIdempotent | lib/retention.go:143-185 | After all removals, nothing is pruned. |
| PruningFacts.RetainedStayRestorable | lib/retention.go:245-252 | Whichever removals succeed, a backup that is not pruned and had a whole chain keeps it. |
| PruningFacts.DeletionOrderIsSafe | lib/retention.go:245-252 | After any prefix of the removals, every backup still present that had a whole chain has one. |
| PruningFacts.FailedRemovals | lib/retention.go:248-251 | Whichever removals fail, orphans of earlier failures included, all that is left has a whole chain if and only if no backup whose removal failed is without its base. |
| PruningFacts.FailuresAreHarmless | lib/retention.go:248-251 | Told from the plan: every pattern of failures leaves only whole chains if and only if each pruned incremental has its base listed and not pruned. |
| PruningFacts.FailedRemovalOrphans | lib/retention.go:248-251 | A full backup, one built on it and a newer full one, of any times: keeping one and failing to remove the incremental leaves an orphan. |
| SnapshotPruning.GetPrunedSnapshots | lib/retention.go:188-236 | For any order of the state map, the method equals its specification: bookmarks in use stay, archives stay when a policy retains them or no bookmark covers their use. |
| SnapshotPruning.ArchiveIsPrunedIff | lib/retention.go:213-226 | An archive is pruned if and only if no policy picks it and it is not in use without a bookmark; pruned archives are in listing order. |
| SnapshotPruning.BookmarkIsPrunedIff | lib/retention.go:213-233 | A bookmark is pruned if and only if no destination uses it; pruned bookmarks are in listing order. |
| SnapshotPruning.PlanFailsIff | lib/retention.go:194-204 | A plan fails if and only if some policy does. |
| SnapshotPruning.UsedSnapshotsStay | lib/retention.go:211-219 | Whichever removals are done, a snapshot in use that was an archive or a bookmark still is one. |
| SnapshotPruning.SnapshotRetryConverges | lib/retention.go:188-236 | After any subset of both kinds of removals, planning again gives exactly the rest of both, in order. |
| BaseSelection.ChooseBase | cmd/backup.go:57-116 | The decision of the run's loops equals its specification, for any listings, options and time. |
| BaseSelection.WhenIncremental | cmd/backup.go:65-116 | A run is incremental on s if and only if its options allow it, s is the first listed snapshot the source still has, and the first full backup listed has a time that is not far enough back, told in milliseconds. |
| BaseSelection.WhenFull | cmd/backup.go:65-116 | A run makes a full backup if and only if its options force it, no listed backup is full, none has its snapshot at the source, or the first full one is old enough. |
| BaseSelection.WhenFatal | cmd/backup.go:96-106 | A run dies undecided if and only if its options allow an incremental, some listed backup has its snapshot at the source, and the first full one listed has no time. |
| BaseSelection.FirstBackupIsFull | cmd/backup.go:96-101 | With nothing listed, a run makes a full backup, whatever its options and the source. |
| Protocol.AlwaysConsistent | cmd/backup.go:42-189 | After any events: snapshots have different ranks, archives and bookmarks hold what the source had, every finished or filled file is the change from its older base to its snapshot, and the listing a run holds is still that of its destination. |
| EndToEnd.EveryBackupRestores | cmd/restore.go:96-106 | After any sequence of backup and prune runs of any destinations, each stopped anywhere, every listed backup has a chain that ends in a full backup, and replaying it oldest first gives exactly the content of the source at its snapshot when the codec is right about the members of that chain. |
| EndToEnd.WholeChainsReplay | cmd/restore.go:96-106 | After any events whatever, failed removals included, every listed backup with a whole chain replays to the content of the source at its snapshot. |
| EndToEnd.AllWholeIffBasesThere | lib/utils.go:202-213 | After any events whatever, everything listed has a whole chain if and only if the base of everything listed is listed. |
| EndToEnd.AlwaysClosed | lib/retention.go:245-252 | After any such sequence the base of every finished backup is there, and what is built on a backup about to be removed goes before it. |
| EndToEnd.HeadHasNoDependants | lib/retention.go:245-252 | The newest backup about to be removed is the base of nothing that is there, and this stays so for the rest. |
| EndToEnd.ReplayIsHistory | cmd/restore.go:101-106 | Replaying a whole chain of consistent payloads gives the content at the snapshot it leads to. |
| SourceSafety.RecordedSnapshotsStay | cmd/backup.go:151-183 | With a state file, and a source that keeps each snapshot it backs up as an archive or a bookmark, after any events, failed removals and stops included, every snapshot recorded for a destination is an archive or a bookmark of the source. |
| Incrementality.AlwaysIncremental | cmd/backup.go:57-188 | Over completed runs, the snapshot recorded for a destination is that of its most recent backup, whose chain reaches the newest full backup and is never about to be pruned. |
| Incrementality.RecoversFrom | cmd/backup.go:114-116 | Whatever happened before, stops included, sending one full backup brings a destination back to where the snapshot recorded is that of its most recent backup, and completed runs keep it there. |
| Incrementality.NextIsIncremental | cmd/backup.go:82-116 | After runs that are completed from the start, or from a full backup of this destination on, the next run that is not forced to be full is full exactly when the newest full backup is old enough, and otherwise incremental on the snapshot recorded for its destination. |
| Incrementality.ChainAgeIsBounded | cmd/backup.go:96-112 | After such runs the root of the most recent backup is the newest full backup, and an incremental is only decided on while that root is younger than nine tenths of the full interval. |
| ChainAge.EveryIncrementalIsDated | cmd/backup.go:82-116 | After any completed runs, whatever has been pruned since, every listed incremental with a whole chain was made by a run that found the root of that chain less than nine tenths of its full interval old when it decided. |
| ChainAge.LaterIncrementalsAreDated | cmd/backup.go:82-116 | The same after runs that stopped anywhere, for the incrementals later than a full backup from which on runs were completed. |
| ChainAge.ChosenIsYoung | cmd/backup.go:96-112 | A run that decides on an incremental finds the root of every chain from its base young. |
| Incrementality.SpineIsNotPruned | lib/retention.go:167-182 | A policy that keeps the most recent backup keeps its whole chain. |
| Machine.SortedList | lib/utils.go:78-117 | A listing is strictly descending and holds exactly what is there, whatever order it was listed in. |
| Machine.Uback.constructor | cmd/backup.go:42-63 | The start: no archives, bookmarks, destinations or state file. |
| Machine.Uback.CreateBackup | lib/interfaces.go:32-36 | A new backup, full or on the base it was given, whose payload is the change from the content at its base. |
| Machine.Uback.SendBackup | destinations/fs.go:72-92 | The file is listed with its whole payload, or the listing is as it was and no temporary file of it is left, whatever fails; other destinations are as before, and the source keeps its snapshot before the file is whole. |
| Machine.Uback.FillAll | destinations/fs.go:75-88 | The whole stream is in the temporary file, the source has kept its snapshot, and nothing is listed yet. |
| Machine.Uback.BreakOff | destinations/fs.go:79-86 | When the stream breaks off the temporary file goes and the listing is as before. |
| Machine.Uback.FailToCreate | cmd/backup.go:118-121 | A creation that fails leaves nothing but, possibly, the new snapshot at the source. |
| Machine.Uback.NoteState | cmd/backup.go:151-175 | The new state names the new snapshot for this destination and is otherwise the old one; an unreadable or unwritable file ends the run and stays as it is, and an interrupted write leaves it broken. |
| Machine.Uback.Transfer | cmd/backup.go:42-149 | From the listings to the new file, with the outcome that what fails decides: the base is what the specification decides, the payload is the change from it, without a new file nothing at any destination is listed differently, and the source has its new snapshot exactly when it kept it before the failure. |
| Machine.Uback.PruneSourceAfter | lib/retention.go:258-293 | What is left of archives and bookmarks is everything but what the plan names and can be removed; a plan that fails removes nothing. |
| Machine.Uback.PruneAfterBackup | cmd/backup.go:179-189 | What is left of archives, bookmarks and backups is everything but what both plans name and can be removed; a plan that fails removes nothing. |
| Machine.Uback.Conclude | cmd/backup.go:151-189 | The state is noted before anything is pruned, and nothing is pruned when it cannot be. |
| Machine.Uback.RunBackup | cmd/backup.go:42-189 | A whole run, whatever fails: its outcome, the files, archives, bookmarks and state file it leaves, and that its effects are a sequence of the events of the protocol. |
| Machine.OutcomeMeans | cmd/backup.go:42-175 | For each way a run can end, exactly which of listing, deciding, creating, sending and noting the state failed, and the base of the backup it names. |
| Machine.Uback.RemoveArchives | lib/retention.go:274-281 | What is left is everything but what is planned and can be removed, one removal at a time. |
| Machine.Uback.RemoveBookmarks | lib/retention.go:283-290 | The same for bookmarks. |
| Machine.Uback.RemoveBackups | lib/retention.go:245-252 | The same for backups; temporary files and other destinations are untouched. |
| Machine.Uback.PruneBackups | cmd/prune.go:25-43 | What is left is the listing without what is pruned and can be removed; a plan that fails changes nothing. |
| Machine.Uback.PruneSnapshots | cmd/prune.go:59-110 | The command succeeds exactly when the state file parses or is not asked for and the plan does not fail; then what is left of the listed archives and bookmarks is everything but what the plan names and can be removed, and nothing is removed when the state file is missing. |
| Restore.FindTarget | cmd/restore.go:85-94 | The result is the listed backup whose name begins as asked and before which no listed one does, or none when no name begins so. |
| Restore.FirstMatchIsFirst | cmd/restore.go:85-91 | By index: no backup listed before the match begins as asked, and without a match none does. |
| Restore.NewestMatch | cmd/restore.go:85-94 | Of a listing most recent first the match is the most recent one, and without a name it is the most recent backup. |
| Restore.DirectoryAfterRestore | sources/tar.go:152-170 | A rename fails if and only if the directory of the base is not there or is the backup's own, which is cleared; otherwise, name by name, which directories are there afterwards and what they hold. |
| Restore.RestoreStep | sources/tar.go:152-170 | Restoring the next backup of a chain finds the directory of its base, the one restored just before, and extends the replay by one. |
| Restore.FullRestoresIffNotStale | cmd/restore.go:26-34 | With any files in the target directory, a full backup restores to what its destination holds if and only if the file under its name, if there is one, is that of the destination. |
| Restore.ReplayOfTaken | cmd/restore.go:26-34 | A chain whose files in the target directory are those of the destination replays as from the destination. |
| Restore.Target.RestoreBackup | sources/tar.go:152-170 | Directory by directory, what one restoration leaves; it fails exactly when extraction does or the directory of the base is missing, and other directories are untouched. |
| Restore.Target.RestoreOne | cmd/restore.go:18-59 | A local payload file is taken before the destination's; nothing is restored without a payload. |
| Restore.Target.RestoreChain | cmd/restore.go:101-106 | No rename fails, whatever lies in the target directory; afterwards only the newest directory of the chain is there, with the replay of the payloads taken; and unrelated directories are as before, also when a restoration fails midway. |
| Restore.Target.Restore | cmd/restore.go:80-106 | The whole command against any reachable state and any target directory: it succeeds exactly when a name matches, the chain is whole and extraction works; what is restored is the most recent match, without a name the most recent backup; the chain is whole when no removal failed; the target directory holds the replay of the payloads taken, and that is the content of the source at the snapshot when none of them is stale. |
| Directories.FsDestination.ListBackups | destinations/fs.go:41-66 | Lists each finished backup file once and nothing else. |
| Directories.FsDestination.SendBackup | destinations/fs.go:72-92 | The listing changes only if all succeeds, and then by the whole stream under the backup's name; no temporary file is left. |
| Directories.FsDestination.WriteTemp | destinations/fs.go:75-86 | Piece by piece the temporary file gets the whole stream. |
| Directories.JoinedConcat | destinations/fs.go:83 | The whole stream is its pieces one after the other. |
| Directories.FsDestination.RemoveBackup | destinations/fs.go:68-70 | Removes this backup from the listing and no other. |
| Directories.FsDestination.ReceiveBackup | destinations/fs.go:94-96 | Gives what was sent under this name. |
| Directories.OthersAreNotListed | destinations/fs.go:48-63 | Entries under temporary names never change what is listed, whatever they hold. |
| Directories.TarSource.ListBookmarks | sources/tar.go:64-91 | Lists each snapshot file once, and no temporary one. |
| Directories.TarSource.CreateBackup | sources/tar.go:107-123 | Incremental exactly when the metadata of the base could be copied; the bookmarks are as before. |
| Directories.TarSource.Finalize | sources/tar.go:133-148 | The snapshot becomes a bookmark, with tar's new metadata, exactly when tar succeeds or warns and the rename works; otherwise the bookmarks are as before. |
| Directories.TarSource.RemoveBookmark | sources/tar.go:98-104 | Removes this bookmark and no other; without a directory there is nothing to remove. |
| DirectorySteps.EventsAreDirectorySteps | destinations/fs.go:68-92 | Creating the temporary file, finding all of the stream in it, renaming it, removing it and removing a backup are events of the protocol: the directory holds the store before and after each. |
| DirectorySteps.CopyingIsNoEvent | destinations/fs.go:83-86 | While the stream is copied, whatever has come of it, the directory holds the store from after its opening. |
| DirectorySteps.SendsAgree | destinations/fs.go:72-92 | The directory after a send that works or fails holds the store after it. |
| DirectorySteps.KeepIsRename | sources/tar.go:144-146 | Renaming the metadata of tar is keeping the snapshot as a bookmark. |
| DirectorySteps.RemoveIsRemove | sources/tar.go:98-104 | Removing the file of a snapshot is removing its bookmark. |
| TarContents.TarIsLawfulIffNothingDeleted | doc/src-tar.md:5-10 | Every tar backup that could be made is right about its base if and only if no file was ever deleted. |
| TarContents.ChangesAreLeast | doc/src-tar.md:5-10 | An incremental archive brings every file of the later tree, and is part of every archive that does. |
| TarContents.TarRestoresIffNothingDeletedSince | doc/src-tar.md:5-10 | After any events, a listed tar backup with a whole chain replays to its snapshot if and only if no member of that chain had a file its snapshot does not have. |
| TarContents.ReplayKeepsAll | doc/src-tar.md:5-10 | A replay has every file that any member of the chain had, and those of the newest as it had them. |
| TarContents.ChainRestoresIffSameNewest | cmd/restore.go:26-34 | With any files in the target directory, a chain of tar archives restores to what its destination holds if and only if at every path the newest archive with a file there has the same one among those taken. |
| TarContents.StaleFileIsRestored | cmd/restore.go:26-34 | A file under the name of a full tar backup is restored in its place, whatever it is. |
| Options.SplitOptions | lib/options.go:125-145 | The index loop parses what lies between the matches of the expression, drops options with an empty key, and keeps the order. |
| Options.MatchMeans | lib/options.go:19 | A match is a character other than a backslash, or the start of the text, then pairs of backslashes and a comma. |
| Options.LeftmostMatch | lib/options.go:19 | The match that is found is the leftmost one. |
| Options.NextCutIsFirst | doc/reference.md:14-16 | The scanner's next cut is the first comma after an even number of backslashes. |
| Options.SplitsLikeScanner | lib/options.go:19 | For any option string, the expression cuts where the scanner does if and only if every segment between the first and the last has something in it other than backslashes. |
| Options.EmptyOptionIsNotCut | lib/options.go:19 | In `a,,b` it does not: the expression leaves `a` and `,b`, the scanner `a`, nothing and `b`. |
| Options.UnescapeEscape | lib/options.go:103 | Escaping commas and backslashes and reading the result gives the text back. |
| Options.UnescapeIsOnePass | lib/options.go:103 | The two replacements are one pass that reads an escaped comma or backslash as itself and leaves a backslash before anything else alone. |
| Options.SplitOfJoined | lib/options.go:102-145 | Splitting the comma-join of escaped options, with @ or without, with values or without, gives back each name in Pascal case behind its @, with its value or true, and drops exactly those left without a key, whatever commas and backslashes names and values are made of; an option without a value, between the first and the last, must not be backslashes only. |
| Options.SplitOfJoinedTexts | lib/options.go:125-139 | Splitting the comma-join of any escaped texts gives the escaped texts back if and only if each between the first and the last has something in it other than backslashes. |
| Presets.OptionSet.Eval | lib/options.go:179-213 | Whenever evaluation ends, the recursive, mutating loop computes its specification. |
| Presets.EvalOptions | lib/options.go:216-227 | From no options, whenever evaluation ends, the result is the one every deep enough evaluation gives. |
| Presets.Deeper | lib/options.go:179-213 | An evaluation that is deep enough to end gives the same when it may go deeper. |
| Presets.EvaluateIsFold | lib/options.go:179-213 | For any template function and literal references, evaluating pairs and the presets they name is one left fold over the fully flattened pairs, and either goes as deep as the other. |
| Presets.EvaluateIsTrace | lib/options.go:179-213 | Whatever references evaluate to, evaluation is one left fold over the pairs they lead to, in order. |
| Presets.ReferenceIsEvaluated | lib/options.go:188-205 | A reference stands for the preset named by what its template evaluates to with the options so far, and for nothing when there is none. |
| Presets.EndsIffNothingLeadsBack | lib/options.go:196-203 | With literal references evaluation ends if and only if no preset it comes to leads back to itself. |
| Presets.LastValueWins | lib/options.go:208-210 | A plain key has the last value given for it, or keeps the one it had. |
| Presets.SlicesConcatenate | lib/options.go:206-207 | A slice key has all the values given for it, in order, after those it had. |
| Presets.FoundByName | lib/options.go:172 | A preset is read back under the name it was set under if and only if that name is empty or does not end in one of the characters of the extension. |
| Presets.TrimRightIs | lib/options.go:172 | What is trimmed are all the last characters that are in the set, and nothing else. |
| Presets.BackupsIsNotFound | lib/options.go:172 | Set as backups, a preset is read back as backup. |
| ProxyTypes.ProxiedOptions | lib/proxy.go:75-94 | For any map orders: every plain and every slice option passed on is there under its trimmed key, with a value some such key had, and nothing else is. |
| ProxyTypes.SeenByNextLayer | lib/proxy.go:81-91 | Option by option, the next layer sees what stands behind Proxy and every other option but Type, Command and Proxy itself. |
| ProxyTypes.OrderMatters | lib/proxy.go:81-85 | The result does not depend on the map order if and only if no two keys with different values are passed on as one. |
| ProxyTypes.PathsCollide | lib/proxy.go:81-85 | With different values for Path and ProxyPath, the next layer may see either as Path. |
| ProxyTypes.NestedTypes | lib/proxy.go:81-85 | After n layers, whatever the map orders, Type is there exactly when n times Proxy followed by Type is an option, and is that option. |
| ProxyTypes.TypeBehindProxies | sources/proxy.go:42-61 | The loop ends, and returns the type of the first layer that is not a proxy, or fails exactly when that layer or the command is missing. |
| ProxyStream.AlwaysSound | sources/proxy.go:128-167 | In every interleaving: the wait group counts the running workers, the channel closes only after both are done, the pipe and the session close at most once. |
| ProxyStream.StreamEndsHonestly | destinations/proxy.go:113-152 | In every interleaving no send blocks or meets a closed channel, and once the pipe is closed its reader sees a clean end exactly when the call, the copy and the close all succeeded. |
| ProxyStream.FailedCallHangs | sources/proxy.go:136-167 | When the remote call fails and its error has been reported, nothing can happen any more but from outside, with the pipe open and the session not closed. |
| ProxyStream.FinishesIffNotStuck | destinations/proxy.go:119-152 | Without anything from outside, an interleaving can be continued until the session is closed if and only if the call has not returned while the copy waits for a stream that is still open. |
| ProxyStream.OnlyOutsideHelps | sources/proxy.go:145-148 | What is stuck is let go when the session is lost or the copy breaks, and only then. |
| ProxyStream.InterleavingsAreShort | sources/proxy.go:128-167 | No interleaving has more than fourteen steps. |

## Left out

- EndToEnd.EveryBackupRestores: removals at a destination that fail while the same run goes on to the next are excluded, because they can leave an orphan; PruningFacts.FailedRemovals gives the exact condition, and EndToEnd.WholeChainsReplay does without the exclusion. A run may still stop after any removal.
- Incrementality.NextIsIncremental: runs that stop between sending and recording make the next base an older one, so runs are completed from some full backup on, with policies for the destination in question that are empty or keep the most recent backup; Incrementality.RecoversFrom says that one full backup is enough.
- Restore.FullRestoresIffNotStale: for a full backup, of codecs that restore different payloads differently, as tar does (TarContents.TarIsTelling); for longer chains the exact condition is stated for tar only (TarContents.ChainRestoresIffSameNewest).
- Chains.GetFullChain: on a cyclic index the code does not return, so a walk that ends is required; Chains.WalkEndsIffNoCycle says when it does.
- Pruning.GetPrunedBackups: the walk from every listed backup ends, for the same reason; the protocol establishes it for every listing.
- ProxyStream.FinishesIffNotStuck: that every interleaving ends is not promised, because it is false once a call has failed with the stream open; also left out are data on its way and the blocking of single reads and writes; that a read or a write fails is an event from outside.
- Machine.Uback.RunBackup: a listing of the source that fails between sending and pruning, which is a warning, is not an outcome.
- Machine.Uback.CreateBackup: the new snapshot is later than all before it; reusing a snapshot (sources/btrfs.go, sources/zfs.go) is left out, because it can make a backup its own base.
- Presets.OptionSet.Eval: an evaluation that does not end does not end in the code either, so one that ends is required; Presets.EndsIffNothingLeadsBack says when it does.
- DirectorySteps.KeepIsRename: the names of bookmarks are related, their contents are not: what tar's metadata knows of a snapshot is opaque.
- Rounding in the float comparison of times and intervals, and the part of the clock below a millisecond.
- Characters are Dafny's, not bytes of UTF-8; names of snapshots and backups are plain ASCII.
- Go also accepts a comma before the milliseconds of a time; names are taken to have a point, as the expression for snapshot names asks.
- Parsing of intervals and retention policies, and the run ended by an interval that does not parse: the model starts from integers.
- Two runs at the same time: the program takes no lock, and runs are serial here.
- Encryption, compression, checksums and the container format: a payload is opaque.
- Object storage, FTP, commands, RPC and multiplexing: only success, failure and stop outcomes. Object storage has no rename, so the end-to-end theorem does not speak of it.
- The btrfs, zfs and mariabackup sources and the btrfs destination; the error propagation of btrfs streams is not claimed.
- Templates, Pascal case and shell splitting are arbitrary functions.
- The printing of dry runs, logging and command line flags other than those that change what a run does.
- The contents of directories where a file is expected, and permissions other than as a removal that fails.
