# Verification of the panel's durable state and streaming algorithms

YUB WPanel keeps durable state on disks, in SQLite tables and in configuration files,
and any write, any file operation and the process itself may fail half way. This project
models the parts that must survive that, and the streaming and merging algorithms that
have a simple specification, and proves what they promise.

How failures are modelled: every operation takes an environment that says how each of
its effects turns out. A database write is `Acked`, `Lost`, or `Unacked` (applied, but
reported as a failure). An operation records every durable state it passes through in a
trail; a crash leaves one state of the trail and an empty memory. Statements about runs
hold for every sequence of operations, every environment and every crash point.

| files | what they model |
|---|---|
| `MaintenanceState`, `MaintenanceThrottle`, `MaintenanceSafety`, `MaintenanceRuns`, `MaintenanceTheorems`, `MaintenanceSecret`, `MaintenanceRequests`, `MaintenanceManager` | the maintenance window: a file lock that is opened for some minutes and must close again |
| `Paths`, `IntegrityCompare`, `IntegrityReport`, `IntegrityWalk`, `IntegrityScan`, `IntegrityEvents` | the code-integrity scan: a pruned walk, a streaming merge of two manifests, the events and the baseline that follow |
| `PluginDeploy` | replacing a plugin directory as a whole, with recovery |
| `BackupChain` | full and incremental file backups |
| `SqlPrefix`, `SqlFilter`, `SqlStatements` | the filter a SQL restore streams through |
| `AlertRules`, `AlertTiming` | the alert state machine |
| `ZipTable`, `Permutations`, `ZipInspect`, `ZipHeader`, `ZipArchive`, `ZipExtract` | checking a ZIP archive and extracting it |
| `BanSync`, `NginxBans` | bans in Fail2ban, in the database and in the Nginx file |
| `Upgrades` | the chain of database upgrades |
| `ImageJob` | fingerprints and metadata of the image optimiser |

Where the code changes things step by step, the model is a class or a method with loops.
The maintenance window, the alerts and the upgrade chain are stated twice: as functions,
about which the theorems are proved, and as classes whose methods perform the effects one
by one and are proved to do what the functions say. `hide` statements keep definitions
out of proofs that do not need them.

## What the proofs found

- Backups: the property "every file last written at or before the stamp is held" needs a
  clock that moves on between the cutoff and the next write. When it stands still, a full
  run keeps the property if and only if no wanted file was last written at the cutoff after
  tar had read it, an incremental run if and only if none was after the scan, each time
  counting only what the new archive misses and no older one holds
  (`FullCoversIffNoneLost`, `IncrementalCoversIffNoneLost`). `LosesAnUpload` is such a run;
  a file that is lost stays lost through incremental runs until it is written again, or a
  full backup runs (`StaysLost`, `FullCovers`).
- Alerts: "a status other than firing is written only when no alert row is open" is false
  for a rule with a threshold when the process dies between the alert row and the runtime
  row (`CrashWhileFiring`). For a rule without one, as ten of the twelve that keep state
  are, it holds over every run with crashes anywhere, whatever rows are open at the start,
  if and only if the table does not say pending at the start
  (`WithoutThresholdPromiseKept`). For every rule, a process keeps the promise until it
  dies if and only if the table it starts from is not an orphan (`PromiseKeptIffNoOrphan`).
- Plugin deployment: recovery picks a backup by name. If an earlier removal failed and left
  an incomplete backup, the complete one comes back exactly when its name sorts first
  (`RecoveryGoesByName`); `PluginsDir.LosesTheCompleteVersion` is a run in which it does not,
  and the complete version is deleted. `PluginsDir.Recover` says what recovery leaves, also
  when it is refused something.
- Nginx: after a reload that is lost, the same call again succeeds and reloads nothing,
  because the file already says what it wants (`BanFile.RepeatedInVain`). A lost reload is
  made up for by the next successful call that has something to write (`BanFile.MadeUpFor`):
  after a success Nginx and the file are in step if and only if they were before, or there
  was something to write (`BanFile.Update`).
- Upgrades: a beta version is replaced by the baseline in two writes. A run that leaves the
  version table empty keeps the destination exactly if the schema does not look like a new
  installation, or needs no step (`BetaInterrupted`). An interruption inside a step, or
  between a step and its record, does no harm if and only if the rest of the chain cannot tell the schema it left from the one it
  found (`ResumesIff`). One step, `ensureFileLockEnabledAtColumn`, does not meet the
  documented rule that steps are repeatable: cut short between adding the column and
  filling it, it is repeated in vain (`LockTimesResume`). At the latest version a run whose
  count of the records fails records that version once more (`FurtherRunExecutesNothing`).
- SQL restore: the filter decides on the beginning of a statement. It drops every statement
  that begins with the letters USE, whatever follows them, and those that begin with
  CREATE DATABASE, CREATE DEFINER= or DROP DATABASE only while that opening takes at most
  256 bytes (`SqlStatements.Forbidden` and `Harmless` say which openings go which way).
- Integrity: the merge needs component order; in plain string order it reports an
  unchanged path as added and as deleted (`PlainOrderIsNotEnough`).

## Model

| member | source | states |
|---|---|---|
| MaintenanceTheorems.TreeOpenOnlyUnderWindow | executor/maintenance.go:364-565 | Over every run from a sealed site, with any failures and crashes: whenever no window is stored, the file tree is locked in the mode the row names and the row says so. |
| MaintenanceTheorems.ClosedOnlyWhenVerified | executor/maintenance.go:513-565 | Every durable state an operation passes through over an open window either still holds that window or holds none and the tree has been verified in the mode recorded when the window opened. |
| MaintenanceTheorems.StatusIsHonest | executor/maintenance.go:204-229 | Status never says "locked" over a tree that is not, in any state reachable from any state that meets the invariant. |
| MaintenanceTheorems.DeadlinesAddUp | executor/maintenance.go:397-489 | In every reachable unlocked window the expiry is the start plus the granted minutes, the revision counts the accepted extensions, the verified-until time counts the committed password checks, and the expiry never exceeds it. |
| MaintenanceTheorems.PasswordIsThrottled | executor/maintenance.go:271-316 | Over every run, six recorded failures span at least 600 seconds, and a request id is recorded again only after 600 seconds. |
| MaintenanceTheorems.FreezeForgets | executor/maintenance.go:271-316 | Over every run: once a freeze that is in force in a reachable state is over, nothing is left to count, so the next wrong password is the first and does not freeze the site again. |
| MaintenanceSecret.PasswordOutlives | executor/maintenance.go:231-316 | After any run in which no settings with a password are sent, with any failures and crashes, exactly the password that was set last opens the site, unless the site is frozen or the request was refused before. |
| MaintenanceSecret.PasswordStays | executor/maintenance.go:164-681 | No operation but a change of the settings touches the password, in any durable state it passes through. |
| MaintenanceTheorems.DoomedUntilClosed | executor/maintenance.go:364-489 | A window that survived a restart, or whose site is uncertain, is never extended or reused: until it is closed, every later state holds the same grant. |
| MaintenanceTheorems.DoomedIsFrozen | executor/maintenance.go:580-681 | Any such window of a site that meets the invariant is one that DoomedUntilClosed speaks of. |
| MaintenanceTheorems.TickRepairs | executor/maintenance.go:618-681 | One repair whose effects succeed, not before the retry time, ends without a window, locked, with the latches cleared. |
| MaintenanceTheorems.TickReleases | executor/maintenance.go:648-674 | A latch without a window is released by any repair that can read the site, and nothing else changes. |
| MaintenanceTheorems.ReplayedExtension | executor/maintenance.go:447-490 | The last accepted extension, sent again, succeeds and changes nothing. |
| MaintenanceRuns.RunSound | executor/maintenance.go:164-681 | The invariant behind these theorems is kept by every run. |
| MaintenanceRuns.ActSound | executor/maintenance.go:231-681 | Every operation keeps it in every durable state it passes through. |
| MaintenanceSafety.SaveSound | executor/maintenance.go:164-202 | The compare-and-swap keeps it whatever its outcome, provided the tree is sealed when the row is to say so. |
| MaintenanceSafety.CheckPasswordSound | executor/maintenance.go:271-316 | So does a password check; one that succeeds writes nothing. |
| MaintenanceThrottle.FailureKept | executor/maintenance.go:286-303 | One more failure keeps the throttle: the rolling lists hold exactly what is recent, and five recent failures mean a freeze. |
| MaintenanceRequests.OpensOnlyWithPassword | executor/maintenance.go:364-417 | A site without a window: if any durable state of an unlock holds a window or another tree, the password was the stored one, of at most 72 bytes, no freeze was in force, no retained failed request younger than 600 seconds had that id, and all other guards held; then and only then a window gets on disk. Otherwise nothing but the record of failures changes. |
| MaintenanceRequests.OpensAsAsked | executor/maintenance.go:364-417 | The converse: when the guards hold and the effects work, the call succeeds, with the window of that request expiring after the stored minutes, five when none are stored. |
| MaintenanceRequests.ExtendsOnlyAsAsked | executor/maintenance.go:447-490 | An extension is accepted exactly when its guards hold, with the right password whenever it passes the verified-until time, and then the window lasts just the minutes asked for longer; otherwise nothing but the record of failures changes. |
| MaintenanceRequests.ClosesOnlyNamed | executor/maintenance.go:492-565 | A request to close touches nothing unless it names the open window; if it does and everything works, the window is closed and the site sealed in the recorded mode; without a window it succeeds exactly for the id that was closed last. |
| MaintenanceRequests.FailedClosingWaits | executor/maintenance.go:513-565 | When the lock cannot be set or verified, the site stays uncertain, the row says why, and for 60 seconds no attempt touches anything. |
| MaintenanceRequests.SettingsAsAsked | executor/maintenance.go:231-269 | Settings are stored exactly when they may be, and nothing else changes. |
| MaintenanceRequests.StatusExactly | executor/maintenance.go:204-229 | Exactly when a site is shown as open, closing, failed to close, locked, unlocked for good or unknown. |
| MaintenanceRequests.ValidIdIff | executor/maintenance.go:357-357 | An id is valid exactly if it is five groups of 8, 4, 4, 4 and 12 hexadecimal digits with hyphens between them. |
| MaintenanceRequests.BytesAreUtf8 | executor/maintenance.go:232-365 | The limits on passwords and actors are limits on their UTF-8 text. |
| MaintenanceManager.MaintenanceManager.Save | executor/maintenance.go:164-202 | The row changes only if the stored record is the one that was read. |
| MaintenanceManager.MaintenanceManager.CheckPassword | executor/maintenance.go:271-316 | Performs the password check of the model, touching no other site. |
| MaintenanceManager.MaintenanceManager.Unlock | executor/maintenance.go:364-417 | Opens a window as the model says, through the same durable states. |
| MaintenanceManager.MaintenanceManager.CompensateUnlock | executor/maintenance.go:421-445 | Locks again after a failed unlock and keeps the intent on disk. |
| MaintenanceManager.MaintenanceManager.Extend | executor/maintenance.go:447-490 | Extends a window as the model says. |
| MaintenanceManager.MaintenanceManager.Relock | executor/maintenance.go:492-511 | Closes the window a caller names, and no other. |
| MaintenanceManager.MaintenanceManager.RelockOwned | executor/maintenance.go:513-565 | Writes the intent, locks, verifies and commits, in that order. |
| MaintenanceManager.MaintenanceManager.Configure | executor/maintenance.go:231-269 | Changes the settings only while no window is open. |
| MaintenanceManager.MaintenanceManager.Tick | executor/maintenance.go:618-681 | After a restart, marks every window for closing; then visits every site that has a window or is uncertain, in any order. |
| MaintenanceManager.MaintenanceManager.RepairAll | executor/maintenance.go:618-681 | One tick whose effects all succeed leaves no site uncertain and no window that is doomed or has run out; the sites that had one are sealed in the mode recorded with it, and nothing else on disk changes. |
| MaintenanceManager.MaintenanceManager.Start | executor/maintenance.go:580-616 | A new process forgets its latches and marks every window before anything else; it reports that it is ready exactly when the mark is durable, the count can be read and no window is left. |
| MaintenanceManager.MaintenanceManager.Serve | executor/maintenance.go:231-681 | One request to one site, which may kill the process in any durable state it passes, keeps the invariant of every site. |
| MaintenanceManager.MaintenanceManager.ServeAll | executor/maintenance.go:580-681 | A whole tick or start keeps the invariant of every site; a start that reports ready leaves no window anywhere. |
| MaintenanceManager.MaintenanceManager.Live | executor/maintenance.go:164-681 | Over any sequence of requests to any sites, sweeps, ticks and starts, killed at any point: every site keeps the invariant, so one that was sealed at the beginning is sealed whenever it has no window. |
| Paths.SplitOfJoin | executor/file_integrity.go:701-718 | Splitting a path undoes joining its components. |
| Paths.JoinOfSplit | executor/file_integrity.go:701-718 | Joining undoes splitting. |
| Paths.PathLessTotal | executor/file_integrity.go:701-718 | The component order is irreflexive, asymmetric and total. |
| Paths.PathLessTransitive | executor/file_integrity.go:701-718 | It is transitive. |
| Paths.ComparePath | executor/file_integrity.go:701-718 | The comparison returns the sign of that order, and zero exactly for equal paths. |
| IntegrityCompare.MergeExact | executor/file_integrity.go:454-541 | The merge of two sorted manifests reports, at every path, exactly the difference at that path. |
| IntegrityCompare.MergeAscending | executor/file_integrity.go:454-541 | It reports no path twice. |
| IntegrityReport.CompareMaps | executor/file_integrity.go:424-452 | The comparison through maps returns exactly the differences, each path once, in report order. |
| IntegrityReport.MergeLines | executor/file_integrity.go:486-534 | The loop that reads both files line by line, once, computes the merge, and fails exactly when a line is bad. |
| IntegrityReport.CompareManifests | executor/file_integrity.go:454-541 | Which error each bad file gives, and otherwise the merge in report order. |
| IntegrityReport.StreamingAgreesWithMaps | executor/file_integrity.go:424-541 | For any two sorted manifests the streaming comparison and the one through maps return the same sequence. |
| IntegrityReport.ReportUnique | executor/file_integrity.go:445-450 | A report is determined by what it contains. |
| IntegrityReport.PlainOrderIsNotEnough | executor/file_integrity.go:497-534 | Two manifests in plain string order for which the merge is wrong. |
| IntegrityWalk.PrunedWalkIsFilteredWalk | executor/file_integrity.go:276-388 | Pruning drops nothing in scope: the walk is the full walk filtered by the scope. |
| IntegrityWalk.PrunedHoldsNothing | executor/file_integrity.go:361-388 | Nothing below a directory that is not entered is in scope. |
| IntegrityWalk.WalkSorted | executor/file_integrity.go:276-359 | A pre-order walk of directories listed in string order emits paths in strict component order. |
| IntegrityWalk.PrunedWalkSorted | executor/file_integrity.go:276-359 | So does the pruned walk: what it writes is what the merge needs. |
| IntegrityWalk.PrunedWalkComplete | executor/file_integrity.go:276-388 | A path is listed exactly when it exists and is in scope. |
| IntegrityWalk.ScopeIsCode | executor/file_integrity.go:361-388 | On path strings: what is in scope has no slash, or lies below wp-admin or wp-includes, directly in wp-content, or below its plugins, themes or mu-plugins. |
| IntegrityWalk.EntersCode | executor/file_integrity.go:361-388 | On path strings: exactly which directories the walk enters. |
| IntegrityWalk.ListedIffCode | executor/file_integrity.go:276-388 | An entry of the tree is listed if and only if its path is one of those. |
| IntegrityWalk.WalkFinds | executor/file_integrity.go:276-359 | What the walk says about a path is what the tree holds there. |
| IntegrityScan.Walker.Scan | executor/file_integrity.go:276-388 | A scan that succeeds lists an entry exactly if it lies on such a path and the tree holds it there, with that kind, size and digest. |
| IntegrityScan.Walker.Walk | executor/file_integrity.go:276-359 | The bounded walk succeeds exactly when what it lists fits the limits on entries and bytes, everything it reads can be read, every line can be written, and it is not cancelled or out of time before; and then it lists exactly the pruned walk. |
| IntegrityScan.ScanReportsEveryChange | executor/file_integrity.go:276-541 | Two scans and their comparison report a difference at a path if and only if it is a path of code, as said on strings, and the two trees do not hold the same there; and each report says what the trees hold. |
| IntegrityEvents.Store.Persist | executor/file_integrity.go:818-860 | When it succeeds exactly the reported keys are open, and the news are counted as they were written; when no key occurs twice, exactly the differences are open and the news are exactly those that were not on record, were resolved, or were recorded with other data. A difference that still exists is never resolved. |
| IntegrityEvents.RecordedIsNotNews | executor/file_integrity.go:818-836 | The same differences again are no news. |
| IntegrityEvents.Store.ApplyRefresh | executor/file_integrity.go:543-586 | For any two manifests, sorted and readable or not: a refresh that must not absorb replaces the baseline only if nothing differs, and otherwise puts what differs on record, also when the time of the scan cannot be noted in the end; which refreshes succeed, and that a manifest that cannot be read changes nothing. |
| PluginDeploy.PluginsDir.Deploy | executor/fastcgi_cache.go:373-424 | Every state on the way preserves the old version or has the complete new one; it succeeds exactly when its effects do; it leaves exactly the new files and what the removal of the old ones spared, or the old version in place or in the one backup. |
| PluginDeploy.PluginsDir.Swap | executor/fastcgi_cache.go:394-423 | The part from moving the old version aside to retiring it. |
| PluginDeploy.PluginsDir.WritePluginFiles | executor/fastcgi_cache.go:483-497 | When it succeeds, the directory holds what it held before and exactly the given files; nothing else is touched, also when it fails. |
| PluginDeploy.PluginsDir.Recover | executor/fastcgi_cache.go:453-481 | A version in place stays; a missing one comes back exactly when the directory can be examined and some backup can be moved; exactly what clean-up leaves; when nothing is refused, nothing is left over and the version in place is the one in place before or in the backup that sorts first; if nothing comes back and the removals work, it is lost. |
| PluginDeploy.PluginsDir.Survive | executor/fastcgi_cache.go:373-481 | Any number of deployments, each killed at any point, and then one recovery: the directory is complete, in the version it had or one that was being deployed, and nothing is left over. |
| PluginDeploy.RecoveryGoesByName | executor/fastcgi_cache.go:457-470 | With stale backups beside the complete one, recovery ends with the complete one exactly when it sorts first. |
| PluginDeploy.PluginsDir.LosesTheCompleteVersion | executor/fastcgi_cache.go:373-481 | A deployment that cannot remove all of the old version, one that cannot clear the rest and is killed, and a recovery: the torn old version is back, and the complete new one is gone. |
| BackupChain.FileBackups.Backup | executor/file_backup.go:51-245 | When a run is full; exactly when it succeeds, is skipped, or is cut off while cleaning; the stamp moves to the cutoff exactly then; which archives and rows are left: of an incremental run all, of a full one without the frozen list or, locally, without the oldest full ones beyond the number to keep, except what could not be removed; every state on the way keeps the coverage. |
| BackupChain.FileBackups.Live | executor/file_backup.go:51-245 | Over any sequence of backups, failures, crashes and site writes, every wanted upload last written at or before the stamp is held in that version by some archive. |
| BackupChain.WantedIsUpload | executor/file_backup.go:144-159 | What the chain is about, on path strings: what lies below wp-content/uploads and leads through nothing that ends in .tmp, .bak, .backup or .swp and through none of the ten cache and backup folders of a wp-content. |
| BackupChain.FullCovers | executor/file_backup.go:363-384 | A full archive read after its cutoff covers everything last written up to the cutoff. |
| BackupChain.IncrementalCovers | executor/file_backup.go:390-424 | An incremental archive extends the coverage from the old stamp to its cutoff. |
| BackupChain.FullCoversIffNoneLost | executor/file_backup.go:107-221 | With a clock that may stand still, a full archive covers everything last written up to the cutoff if and only if no wanted file was last written at the cutoff after it was read, and held by no older archive in that version. |
| BackupChain.IncrementalCoversIffNoneLost | executor/file_backup.go:107-221 | So does an incremental archive if and only if no wanted file was last written at the cutoff after the scan, and missed by the archive and every older one. |
| BackupChain.StaysLost | executor/file_backup.go:390-424 | A file that was lost stays lost through every incremental run during which it is not written again. |
| BackupChain.LosesAnUpload | executor/file_backup.go:107-221 | A full backup after which an upload is held by no archive. |
| BackupChain.NeverListed | executor/file_backup.go:390-400 | A file that is not newer than the stamp is listed by no incremental backup until it is written again. |
| BackupChain.FileBackups.MakeArchive | executor/file_backup.go:161-207 | Exactly when an archive is made, or found unnecessary, and what it holds; it disturbs no other. |
| BackupChain.FileBackups.CleanChain | executor/file_backup.go:532-565 | Of the listed archives, up to the point where it is cancelled, exactly those and those rows are left that cannot be removed; never the new one goes. |
| BackupChain.FileBackups.CleanOld | executor/file_backup.go:567-603 | Exactly the oldest full archives beyond the number to keep go, with their rows, except those that cannot be removed. |
| BackupChain.FileBackups.SetStamp | executor/file_backup.go:449-474 | The stamp is the cutoff or unchanged. |
| SqlStatements.WriteSanitizedRestoreSQL | executor/backup.go:443-613 | What is written depends only on the input, not on how it is read; it succeeds exactly when reading ends and the destination takes it all; a destination that fails has taken a prefix; when reading fails, what was written is right whatever would have followed. On the text: an input that is one statement is written as nothing when it begins, in any letter case, with USE, CREATE DATABASE, CREATE DEFINER= or DROP DATABASE, and unchanged when its first words turn out to be others; of any sequence of such statements, with anything after them, exactly the others are written. |
| SqlStatements.PiecesAt | executor/backup.go:443-613 | The same for such statements anywhere in a longer input, with quotations, escapes and backticks inside them: where each ends, and whether it is written. |
| SqlStatements.OneStatement | executor/backup.go:443-613 | The same for an input that is one statement, whatever it holds after its opening. |
| SqlStatements.ForbiddenSettles | executor/backup.go:567-613 | Such an opening is dropped with its last byte, and nothing is decided before. |
| SqlStatements.HarmlessSettles | executor/backup.go:567-613 | An opening whose first or second word turns out to be another is kept, and nothing is decided before. |
| SqlFilter.Sanitize | executor/backup.go:443-565 | The filter, for any way of deciding, writes what the definition over the whole input says. |
| SqlFilter.Take | executor/backup.go:467-548 | One byte: what is written now and later adds up, and bytes are held only while a statement is undecided or being dropped. |
| SqlFilter.FilteredIsSubsequence | executor/backup.go:443-565 | The output is a subsequence of the input. |
| SqlFilter.IdentityIffNothingDropped | executor/backup.go:443-565 | It is the input exactly when no statement is dropped. |
| SqlFilter.DroppedWhole | executor/backup.go:474-500 | A statement is dropped, whole, exactly when the first beginning that settles it says so. |
| SqlPrefix.NormalizeSQLPrefix | executor/backup.go:615-655 | The rewriting loops terminate, because every rewrite shortens the text, and compute the normal form. |
| SqlPrefix.NormalizeCommentFree | executor/backup.go:615-655 | No comment opens in the normal form. |
| SqlPrefix.NormalizeIdempotent | executor/backup.go:615-655 | Normalizing twice is normalizing once. |
| AlertRules.RunFaithful | executor/alert_monitor.go:143-436 | Over every run, whenever the state is not marked unsaved, memory and table agree on status, pending time and firing time. |
| AlertRules.NotFiringOnlyWhenResolved | executor/alert_monitor.go:206-436 | A status other than firing is written only when no row is open, over every run in which no crash leaves an orphan: open rows that the table does not account for. |
| AlertRules.WithoutThresholdPromiseKept | executor/alert_monitor.go:105-436 | For a rule without a threshold it is so over every run, crashes included and whatever rows are open, if and only if the table does not say pending at the start. |
| AlertRules.PromiseKeptIffNoOrphan | executor/alert_monitor.go:350-436 | For every rule, the exact condition under which a process that starts from a table keeps the promise until it dies. |
| AlertRules.CrashWhileFiring | executor/alert_monitor.go:222-228 | A run from an empty database in which a rule with a threshold breaks the promise. |
| AlertRules.WorkingRoundSettles | executor/alert_monitor.go:143-273 | One round with working writes clears what was unsaved; an unknown check changes nothing. |
| AlertTiming.FiresWhenItLasted | executor/alert_monitor.go:206-345 | Over every run without crashes from any table: a rule with a threshold is made firing in a round if and only if it was not, the check sees the condition, and an earlier round saw it, or the table said it was pending, at least that long before, with no normal check and no disabled round since; unknown checks do not count. Without a threshold it fires as soon as the condition is seen. It stops only when it is calmed. |
| AlertTiming.SpeaksAgain | executor/alert_monitor.go:206-270 | A rule that goes on firing logs again only when more than the resend interval has passed since it did, and, unless entries are lost, exactly when the condition is seen then. |
| AlertTiming.RowsFollow | executor/alert_monitor.go:206-321 | A rule that is made firing opens a row, one that stops closes them all. |
| AlertTiming.RunIsStateAfter | executor/alert_monitor.go:143-204 | The rounds of these histories are those of the runs above. |
| AlertRules.AlertRule.RunCheck | executor/alert_monitor.go:143-204 | What a round does with one rule, through the same database states and writes as the model. |
| AlertRules.AlertRule.ProcessCheck | executor/alert_monitor.go:206-261 | The transitions of one check. |
| AlertRules.AlertRule.PersistRuntimeState | executor/alert_monitor.go:401-436 | A status other than firing waits until the open rows are resolved. |
| ZipTable.NormalizeName | executor/archive_safety.go:230-262 | Exactly the well-formed names are accepted, and the name can be read back. |
| ZipTable.PathTable.Add | executor/archive_safety.go:118-173 | The incremental table accepts an entry exactly when names stay distinct and no file lies above another entry. |
| ZipInspect.OrderDoesNotMatter | executor/archive_safety.go:118-173 | Hence acceptance of names does not depend on the order of the entries. |
| ZipInspect.ExceedsRatio | executor/archive_safety.go:286-295 | The test by quotient and remainder is the exact test uncompressed > limit * compressed. |
| ZipInspect.Overlap | executor/archive_safety.go:177-182 | Comparing sorted neighbours finds an overlap exactly when some two ranges overlap. |
| ZipInspect.InspectEntries | executor/archive_safety.go:107-182 | The directory pass accepts exactly the acceptable directories, and reports the true sum. |
| ZipHeader.FindLocalHeader | executor/archive_safety.go:305-331 | The scan succeeds exactly when one header in the whole file ends where the data begins, and finds it. |
| ZipHeader.ValidateLocalHeader | executor/archive_safety.go:297-357 | Accepts exactly the entries whose only header agrees with the directory, and says what they occupy. |
| ZipHeader.DescriptorRecognised | executor/archive_safety.go:359-395 | What is recognised as a data descriptor, with its length, is exactly what section 4.3.9 of APPNOTE.TXT prescribes, with its signature or, unless the checksum looks like one, without. |
| ZipArchive.InspectArchive | executor/archive_safety.go:107-182 | Over the bytes of the file: a directory is accepted if and only if every entry has a valid header of its own and the directory is acceptable with the places these give; and then no two entries share a byte of header, data or descriptor. |
| ZipExtract.ExtractFiles | executor/archive_extract.go:129-190 | After no write does a file or the whole exceed the policy, whatever the archive holds; extraction succeeds exactly when nothing goes wrong, every file holds what was declared and the limits suffice; it is refused for a size exactly at the first entry that offers more than its limit before anything else goes wrong, and with the code of that limit. |
| ZipExtract.ExtractLimitWriter.Write | executor/archive_extract.go:215-222 | A write that would exceed the limit is refused before anything is written. |
| ZipExtract.ExtractLimitWriter.Copy | executor/archive_extract.go:224-249 | Reaches the end exactly when nothing goes wrong and the data fits the limit, and is refused exactly when more is offered before anything goes wrong; the last moment recorded holds all that was written. |
| BanSync.FirewallBans.Sync | executor/fail2ban.go:955-1148 | Nginx refuses exactly what is live in a readable web jail, open in an unreadable one, or manually banned and unexpired; rows of unreadable jails stay; every row left open in a readable jail is live; a live ban has one open row at most, and has one unless its name is no address or a manual or level-five row shields it that has not expired or belongs to another live ban; and every live ban with a ticket and an open row has exactly the times and the level of the ticket. |
| BanSync.FirewallBans.Restore | executor/fail2ban.go:1037-1068 | Of the open rows of a live ban the newest by time, then by number, stays open; with a ticket it gets the ticket's time, its end if that is still to come and none otherwise, and level 2 up to 600 seconds, 3 up to a day and 4 beyond; without one only an end that is past is cleared. |
| BanSync.FirewallBans.Receipts | executor/fail2ban.go:979-995 | Only rows of live bans change, none is reopened, which live bans have a receipt afterwards, and that each with a ticket has the ticket's times and level. |
| BanSync.FirewallBans.CloseEnded | executor/fail2ban.go:997-1033 | Exactly the open rows of readable jails that are not live are closed. |
| BanSync.FirewallBans.EndPanelBans | executor/fail2ban.go:1105-1148 | Exactly the expired bans of the panel are closed. |
| BanSync.FirewallBans.Record | executor/fail2ban.go:1161-1258 | Which calls are refused; after a restart the last receipt is reopened; otherwise, unless a manual or level-five ban is in force, the current receipt is renewed or a new one is written. |
| NginxBans.ParsedFreely | executor/nginx_ban.go:64-88 | However a line of two words is spaced, and with any number of semicolons, it bans the first exactly if the second is 1 and the first is an address. |
| NginxBans.CommentParsed | executor/nginx_ban.go:64-88 | A line whose first character is a number sign bans nothing. |
| NginxBans.ReadFileOf | executor/nginx_ban.go:64-88 | Reading a rendered file gives exactly the addresses rendered. |
| NginxBans.RenderReadRender | executor/nginx_ban.go:64-149 | Rendering is canonical, and reading it back gives the valid banned entries of the map. |
| NginxBans.BanFile.Update | executor/nginx_ban.go:44-127 | Through the file, adding and removing are insertion into and deletion from a set; exactly when the call succeeds, when Nginx follows, and when the two are in step afterwards. |
| NginxBans.BanFile.WriteFile | executor/nginx_ban.go:90-127 | A file that Nginx rejects is taken back, kept, torn or removed, as the way back goes; only a reload changes what Nginx refuses. |
| NginxBans.BanFile.Ensure | executor/nginx_ban.go:26-36 | Creating the missing file bans nothing and reloads nothing. |
| NginxBans.BanFile.Replace | executor/nginx_ban.go:38-42 | Replacing the set leaves exactly the valid banned addresses of the map; a success brings Nginx into step unless the file was the same already. |
| NginxBans.BanFile.Serve | executor/nginx_ban.go:44-127 | Over any changes without a lost reload or way back, Nginx refuses exactly what the file bans. |
| NginxBans.BanFile.RepeatedInVain | executor/nginx_ban.go:90-127 | After a lost reload the same ban again succeeds, and Nginx still lets the address in. |
| NginxBans.BanFile.MadeUpFor | executor/nginx_ban.go:90-127 | After a lost reload the next ban of another address that succeeds brings Nginx into step. |
| Upgrades.Resumable | database/upgrades.go:1233-1348 | However often the chain is interrupted, without harm, and rerun, it ends at the latest version with the schema of one uninterrupted run. |
| Upgrades.RepeatableNeverHarmed | database/upgrades.go:1304-1335 | A chain of repeatable steps is never harmed, wherever it is interrupted. |
| Upgrades.ResumesIff | database/upgrades.go:1304-1335 | Cut short in a step, or between a step and its record, and rerun, it ends with that schema if and only if the rest of the chain cannot tell the schema the step left from the one it found. |
| Upgrades.BetaIff | database/upgrades.go:1228-1230 | A version is a beta version exactly when it holds the word beta, in any letter case. |
| Upgrades.RunKeeps | database/upgrades.go:1233-1348 | Any run that is not harmed, however it ends, leaves the same destination ahead; one that succeeds is there. |
| Upgrades.ExecuteKeeps | database/upgrades.go:1304-1335 | Steps that are not harmed leave the same destination ahead. |
| Upgrades.ExecuteRecords | database/upgrades.go:1304-1335 | One execution records the versions of exactly the steps it completes, in order. |
| Upgrades.RunAllRecords | database/upgrades.go:1233-1348 | Over any interruptions and reruns, harmful or not, what has been recorded are exactly the versions of the steps passed, in order, and after the last of them the latest version again, at most once for every run that could not count the records. |
| Upgrades.RecordsSuffix | database/upgrades.go:1304-1335 | An uninterrupted run records the versions after its own. |
| Upgrades.FurtherRunExecutesNothing | database/upgrades.go:1233-1348 | At the latest version no step is executed; nothing is recorded either, unless the records cannot be counted: then the latest version is recorded once more. |
| Upgrades.BetaInterrupted | database/upgrades.go:1273-1284 | Whatever happens to the two writes that normalize a beta version, exactly when the destination is kept. |
| Upgrades.LockTimesResume | database/upgrades.go:341-344 | A chain that holds the step that adds the locking times, cut short in it and rerun, ends with the schema of an uninterrupted run if and only if the column was there already, the step was not cut between its two writes, or there was nothing to fill. |
| Upgrades.Database.RunUpgrades | database/upgrades.go:1233-1348 | The loop with its flag does what the model says. |
| ImageJob.Job.Run | executor/image_batch_job.go:194-296 | However the job ends, a file that shrank has its size reported, or the last report failed and it is not skipped next time, unless forgetting its fingerprint failed too; exactly which files shrank, which fingerprints are left and with what, where the job stopped and with which status. |
| ImageJob.Job.Pending | executor/image_batch_job.go:316-328 | Skipped and pending files make up the candidates. |
| ImageJob.Job.Handle | executor/image_batch_job.go:234-276 | One file: the counters, its fingerprint, and that a file that shrank is reported or waits in the manifest. |
| ImageJob.Job.Forget | executor/image_batch_job.go:298-304 | Exactly the fingerprints in the manifest go whose deletion succeeds. |

## Left out

- Environment of the panel: HTTP handlers, templates, diagnostics by language models, Adminer, SSH keys, WP-CLI and Node are not modelled; they are plumbing around the state modelled here.
- External programs: nginx, fail2ban-client, nft, tar, find and systemctl are effects that succeed or fail; SQLite is a set of rows; JSON, bcrypt, AES-GCM, SHA-256, deflate and CRC are abstract.
- MaintenanceManager.MaintenanceManager.CheckPassword: a password matches when it equals a stored secret, which stands for the bcrypt comparison.
- MaintenanceManager.MaintenanceManager.Configure: the sealed copy of the password is a step that succeeds or fails, and its contents are not modelled.
- Maintenance: audit entries and alert mails, the absorbing flag handed to the integrity refresh, and writers of the row other than this manager (the compare-and-swap is modelled, their races are not); `site_lock.go` is a mutex that is free or busy.
- MaintenanceManager.MaintenanceManager.Live: calls to different sites come one after another, each as a whole; only the restart sweep is interleaved with a call.
- IntegrityScan.Walker.Walk: which error is reported is not stated, time is a number of visits, and the site root itself can be listed; a name is a string of code points.
- IntegrityEvents.Store.Persist: a signature is the data it is computed from, so collisions of the truncated hash do not occur; first and last times of an event are not kept.
- The refresh queue of the integrity scanner, its retry times and the component summaries it mails are not modelled.
- PluginDeploy.PluginsDir.Deploy: a directory is the map of its files, so a directory holding only empty directories counts as empty, and modes and symbolic links do not appear; the `requireExisting` gate belongs to another caller.
- BackupChain.FileBackups.Live: the modification time of a file is the time of its last write, so a file moved in with an older time is not covered; the clock moves on between the cutoff and the next write (FullCoversIffNoneLost and IncrementalCoversIffNoneLost say what happens when it does not), and between the cutoff and the finished archive. Remote copies are not tracked, only whether syncing and deleting them succeed.
- BackupChain.FileBackups.MakeArchive: tar reads each file at one moment, and file names with line breaks, which would break the list handed to tar, do not occur.
- SqlStatements.WriteSanitizedRestoreSQL: for statements that open with a comment, or whose second word begins like DATABASE or DEFINER= and then ends, the text-level statement is not made; the definition over the whole input covers them.
- SqlPrefix.NormalizeSQLPrefix: only ASCII letters are upper-cased, because no decision looks at others.
- The test that a restore file contains a table definition (`validateRestoreSQL`) is a smaller automaton of the same kind.
- AlertRules.AlertRule.RunCheck: mails and webhooks are not modelled, nor the parsing of stored times; event-only rules keep no state.
- AlertTiming.FiresWhenItLasted: speaks of the rounds of one process; after a crash it holds again for the next process, from the table that one finds.
- ZipTable.NormalizeName: whether a name is valid UTF-8 is a parameter.
- ZipInspect.InspectEntries: which error is reported first is not stated; the second pass, which reads every entry to check its CRC and length, is not modelled.
- ZipExtract.ExtractFiles: creating parent directories succeeds or fails as a whole, and the digest check before and after extraction is not modelled.
- BanSync.FirewallBans.Sync: database operations succeed; the persistent nft set, the ban history, reasons and counters, and the parsing of Fail2ban's output are not modelled.
- NginxBans.BanFile.Update: the file is the list of its lines, valid addresses are a parameter, and the lock file is not modelled; Nginx loads the file at once when it is told to, and at no other time.
- Upgrades.Resumable: the latest row is the one inserted last, as it is when the clock does not run backwards; a step is a function of the schema, and the first one does not create the column that marks a new installation.
- ImageJob.Job.Run: a crash loses the manifest, so the statement is about jobs that end; the scan and the optimiser are effects, and metadata shared between jobs is not modelled.
- Renderers of fail2ban and logrotate configuration, memory tables, labels and ordinary table access would only add easy members.
