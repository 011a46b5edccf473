# Server status, verified

This project models the parts of the server-status system that keep state, and proves what every run of them keeps.
`dafny verify dfyconfig.toml` checks all of it.

## What is modelled

**The central database.** Nodes, inventory tables, minute samples, "current" tables, health snapshots, hourly rollups
and table partitions are maps keyed as in the schema (`Database.Db`). A committed transaction is one step. `Stores.Store`
is a class whose methods run the statements in order and are proved equal to the step's specification:
`Validate` and `Ingest` for a posted report, `RegisterNode`, and the hourly maintenance cycle. `Runs.State` is the
database after any sequence of steps; its postcondition is the conjunction of all invariants (`Ingestion.WfDb`).

* *Inventory.* The five plain resource tables are handled by the same statements, so they are one generic operation
  (`InventoryTables`); interfaces with their addresses are `NetworkTables`. Row ids come from a counter that stands for
  fresh uuids.
* *Fingerprint.* SHA-256 over the JSON text is a function parameter `digest`, assumed only to tell inventories apart and
  never to return the unset value (`Inventories.GoodDigest`).
* *Receive times* are free: they are read before the row lock, so commits need not follow their order. A commit whose
  receive time precedes a first-seen time, or the creation of the node's token, violates a CHECK and is rolled back, as in
  PostgreSQL.
* *Clock.* Instants count nanoseconds, buckets minutes, with exact Gregorian months. A report is validated and committed
  at one instant `at`; a cycle succeeds and is atomic.
* *Numbers* are exact integers and reals. The one fraction an inventory holds is a finite binary float, so that inventories
  stay countable and a digest that tells them apart exists.

**Versions and self-update.** The Go order (`Versions`), the independent shell order of the macOS agent (`ShellVersions`),
and the protocol of directives and replacements that relies on them (`SelfUpdate`).

**Four smaller cores.** The verified release cache (`ReleaseCaches`, `Checksums`), the SMART merge against the server's
validator (`Smart`, `SmartReadings`, `SmartMerge`), the 32-bit to 64-bit counters of the Windows agent (`Counters`), and the history query
(`HistoryQueries`), run on the tables as any run leaves them (`HistoryWindows`).

Operations are specified by functions, and what those functions compute is stated apart from them, on the stored columns
themselves: `ShownInventory` and `ReadBack` for what a report leaves behind, `HourFigures` for hourly rows, `SchemaChecks`
for the schema's column CHECKs, `SmartReadings` for SMART documents, and `HistoryWindows` for the points of the query.

## What the proofs found

* A health snapshot with an empty list leaves no row for the freshness test, so an older report can replace a newer empty
  one (`Snapshots.EmptyListForgetsItsMinute`). The latest report is shown exactly when `Snapshots.LatestShownIff` says so.
* Skipping an unchanged inventory changes no inventory row but last-seen times: a service that always synced, run beside
  the real one on the same steps, has the same rows, ids and fingerprints (`AlwaysSyncing.SkippingRefinesSyncing`). It does
  change which reports survive. The other service loses exactly the unchanged reports received before an active row was
  first seen (`AlwaysSyncing.LostByAlwaysSyncing`); `SmallReports.OnlyAlwaysSyncingRollsBack` is a run that loses one.
* A bucket `Validate` accepts can lie beyond the last partition when a cycle is more than six days old. With receive times
  in order, a validated report of a known node is committed exactly when its day is at most the seventh after the last
  cycle's (`PromptReports.PromptReportCommitsIff`).
* The SMART merge can add a disk a second time under the key it already has, and then the server rejects the whole report:
  exactly when `SmartMerge.MergedInventoryValidIff` says so, for instance when smartctl pads the serial number
  (`SmartMerge.PaddedSerialRejected`). A SCSI error sum above the bigint range is rejected too (`Smart.HealthPassesIff`,
  `SmartMerge.LargeSumRejected`).
* The Go and the shell order can disagree only where two prereleases first differ in two spellings of one number: Go then
  decides by their text, the shell calls them equal and reads on. They agree exactly when `ShellVersions.VersionsAgreeIff`
  says so; 1.0.0-01 and 1.0.0-1 are a pair on which they do not
  (`ShellVersions.LeadingZeroDisagrees`).
* The release cache and the agent can read different digests from one checksums file, as one keeps the last line for an
  asset and the other the first, and only one asks for both Linux programs (`ReleaseCaches.ReadAlikeIff`).

## Model

| member | source | states |
|---|---|---|
| Reports.UniqueKeys | internal/report/validate.go:311-324 | accepts exactly the lists with no blank key and no two keys equal once trimmed |
| Validation.ValidateInventory | internal/report/validate.go:68-144 | the loops accept exactly the valid inventories |
| Validation.ValidateMetrics | internal/report/validate.go:146-294 | the loops accept exactly the metrics in range that name resources of their own inventory |
| Validation.Validate | internal/report/validate.go:16-66 | accepts exactly well-formed reports in the time window whose fingerprint is that of their inventory, and leaves the inventory normalised |
| Sorting.SortByCanonical | internal/report/inventory.go:10-25 | permutations of a list with identifying keys sort to the same list |
| Text.LessIff | internal/report/inventory.go:10-25 | Go's order of strings: a proper prefix, or smaller where they first differ |
| Text.TrimSpaceCuts | internal/report/validate.go:311-324 | trimming cuts white space off both ends and nothing else |
| Inventories.NormalizeIsCanonical | internal/report/inventory.go:10-25 | valid inventories have one normal form exactly when they state the same facts in any order |
| Inventories.NormalizeSortsOnly | internal/report/inventory.go:10-25 | every list, mount options and addresses come out in order, and the inventory says what it said |
| Inventories.FingerprintIdentifiesFacts | internal/report/inventory.go:27-35 | valid inventories have one fingerprint exactly when they state the same facts |
| InventoryTables.SyncTable | internal/store/ingest.go:330-361 | the update-or-insert loop and the closing update compute the sync of the table |
| InventoryTables.SyncView | internal/store/ingest.go:363-520 | after a sync the active keys are exactly the reported ones with the reported columns; active keys keep their row, new and returning keys get rows that never existed, other owners are unaffected |
| InventoryTables.SyncExtends | internal/store/ingest.go:363-520 | a sync loses no row, changes no row's owner, key or first-seen time, leaves removed rows as they are, and keeps one active row per key |
| InventoryTables.SyncStamped | internal/store/ingest.go:363-520 | a sync writes exactly the active rows of its owner, with its own time, and adds rows |
| InventoryTables.SyncOfProjected | internal/store/ingest.go:330-361 | syncing what the active rows already show changes only last-seen times |
| InventoryTables.ActiveIds | internal/store/ingest.go:596-683 | the scan returns exactly the active rows of the node by key |
| NetworkTables.SyncAddresses | internal/store/ingest.go:544-577 | closing the addresses whose row id was not collected equals closing those whose value was not reported |
| NetworkTables.SyncNetworkInterfaces | internal/store/ingest.go:522-594 | the nested loops and the two closing updates compute the network sync |
| NetworkFacts.SyncNetworkProjects | internal/store/ingest.go:522-594 | afterwards the active interfaces, and the active addresses of each, are exactly those reported; a kept interface keeps its row |
| NetworkFacts.SyncNetworkRows | internal/store/ingest.go:578-594 | no active address belongs to a removed or foreign interface, no row is lost or reopened, other nodes keep their rows |
| NetworkFacts.SyncNetworkStamped | internal/store/ingest.go:522-594 | exactly the node's active interface and address rows are written |
| InventoryDatabase.SyncAllTables | internal/store/ingest.go:308-328 | the sequence of table syncs is the sync of the whole inventory |
| InventoryDatabase.SyncInventoryProjects | internal/store/ingest.go:308-328 | after a sync the active rows of all tables are exactly the inventory |
| InventoryDatabase.SyncInventoryOthers | internal/store/ingest.go:308-328 | what any other node's active rows show is undisturbed |
| InventoryDatabase.SyncInventoryCheckedIff | db/migrations/V001__monitoring_schema.sql:92-102 | PostgreSQL accepts a sync exactly when no active row of the node was first seen after its receive time |
| InventoryDatabase.SyncInventoryOfProjected | internal/store/ingest.go:72-76 | syncing the inventory the rows already show changes only last-seen times, in every table |
| Samples.InsertSamples | internal/store/ingest.go:145-210 | delete, insert loop and trigger either report the first metric that cannot be stored, or replace the minute's rows and refresh the current rows |
| Samples.ResolvableNeverFails | internal/store/ingest.go:154-210 | distinct keys that resolve to distinct ids and pass their checks fail only for a missing partition |
| Samples.AgreesKept | db/migrations/V001__monitoring_schema.sql:487-566 | replacing a minute's rows and firing the triggers keeps current rows at least as late as every sample, and equal when equally late, for retries and late arrivals too |
| Samples.ReplayIsLastOfGreatest | db/migrations/V003__disk_io_metrics.sql:37-90 | a current row shows the last arrival among those of the greatest minute |
| Samples.ArrivalOrderIrrelevant | db/migrations/V003__disk_io_metrics.sql:37-90 | samples for distinct minutes leave the same current row in any order |
| Snapshots.ReplaceSnapshot | internal/store/ingest.go:223-306 | freshness test, delete and insert loop replace the node's whole snapshot, or leave it, or report the first metric that cannot be stored |
| Snapshots.ReplacedIsNext | internal/store/ingest.go:223-306 | a replacement is one step of the node's own rows and no step of anyone else's |
| Snapshots.SnapshotIsWhole | internal/store/ingest.go:223-306 | after any history a node's rows are none or exactly one report's list, under one minute |
| Snapshots.MinuteNeverFalls | internal/store/ingest.go:286-306 | over any sequence of replacements, while there are rows their minute never falls |
| Snapshots.LatestShownIff | internal/store/ingest.go:223-306 | the last report for the greatest minute is shown exactly when its list is not empty or no report that outlived the later ones has a list |
| Snapshots.NonEmptyListsShowLatest | internal/store/ingest.go:223-306 | with no empty list, the last report accepted for the greatest minute is shown |
| Snapshots.EmptyListForgetsItsMinute | internal/store/ingest.go:286-306 | a newer empty list is replaced by an older report |
| Rollups.CollectIsGroup | db/migrations/V007__gpu_history_metrics.sql:275-306 | a group holds each row exactly as often as minutes of the hour store it, and no other row |
| Rollups.RollupIsExact | db/migrations/V007__gpu_history_metrics.sql:257-433 | all four hourly tables become exactly the aggregates of the hour's samples, none stale, none missing, no network sample lost in the join; other hours are unchanged |
| Rollups.RollupIdempotent | db/migrations/V007__gpu_history_metrics.sql:257-433 | rolling an hour up again changes nothing |
| Rollups.HourIsTransfers | db/migrations/V007__gpu_history_metrics.sql:257-433 | an hour's rows depend on the samples of that hour only |
| HourFigures.HourFiguresAre | db/migrations/V007__gpu_history_metrics.sql:275-433 | in an exact hour, every column of all four tables is the count, total, average, rounded average or maximum of its own stored column over the minutes of the hour |
| Partitions.EnsureRawPartitions | db/migrations/V007__gpu_history_metrics.sql:91-134 | the loop adds exactly the missing day partitions of all four tables in the range |
| Partitions.EnsureHourlyPartitions | db/migrations/V007__gpu_history_metrics.sql:136-185 | the loop adds exactly the missing month partitions in the range |
| Clock.YearStart | db/migrations/V007__gpu_history_metrics.sql:136-185 | years start after 365 days and one for each leap year of the Gregorian rule |
| Clock.MonthStartInYear | db/migrations/V007__gpu_history_metrics.sql:136-185 | months start where the calendar has them |
| Partitions.DropExpiredPartitions | db/migrations/V007__gpu_history_metrics.sql:187-255 | in whatever order partitions of one rank are listed, every step leaves each detail sample its main sample, no drop is refused, and exactly the expired partitions go |
| Partitions.MaintainPartitions | db/migrations/V001__monitoring_schema.sql:723-742 | ensures the days from yesterday to seven ahead and the months from last to two ahead, then drops the expired ones, keeping the invariants |
| Partitions.MaintainedRows | db/migrations/V007__gpu_history_metrics.sql:187-255 | upkeep drops exactly the rows older than 90 days or 24 months and changes no other |
| Partitions.AcceptedBucketsPartitioned | internal/report/validate.go:37-42 | every bucket acceptable during the six days after a cycle, and until five minutes of skew pass the seventh day, has its partitions |
| Partitions.RunMaintenanceCycle | internal/server/maintenance.go:25-41 | upkeep followed by the loop over 25 offsets is the cycle |
| Partitions.CycleFacts | internal/server/maintenance.go:32-39 | a cycle makes the 25 hours before the current one exact and changes no other hour whose month it keeps |
| Ingestion.SyncedShowsReport | internal/store/ingest.go:40-76 | whether or not the sync ran, the active rows show the report's inventory, and every stored fingerprint stays true |
| Ingestion.ContributionFits | internal/store/ingest.go:77-210 | rows that get past all failures pass their checks, have partitions and name rows of the node |
| Ingestion.SamplesKept | db/migrations/V001__monitoring_schema.sql:217-300 | a report keeps checks, partitions and foreign keys of all sample tables |
| Ingestion.CurrentKept | db/migrations/V007__gpu_history_metrics.sql:52-89 | a report keeps all four current tables in agreement with the samples, network rows with the interval and GPU rows with the times of their main sample |
| Ingestion.IngestKeepsWf | internal/store/ingest.go:14-221 | every committed report keeps all invariants and the inventory history, and leaves the active rows showing its inventory |
| Acceptance.ProjectedIdsMatch | internal/store/ingest.go:77-92 | the ids read after the sync stand for exactly the keys of the report's own inventory |
| Acceptance.GpuRowsChecked | internal/store/ingest.go:188-206 | GPU rows meet memory used <= total although the total is read from the device row |
| Acceptance.ValidatedOutcome | internal/store/ingest.go:14-221 | a validated report is committed unless its node is unknown, its receive time precedes the node, its token or an active row it must stamp, or its day has no partition, and then fails for that reason; it never names an inactive resource |
| ReadBack.MainReadsBack | internal/store/ingest.go:94-144 | the stored main sample is the report's own figures |
| ReadBack.FilesystemReadsBack | internal/store/ingest.go:154-173 | each filesystem metric is found under the active row of its key with its own figures, inodes absent exactly when zero |
| ReadBack.NetworkReadsBack | internal/store/ingest.go:174-195 | each network metric is found under the active row of its key unchanged |
| ReadBack.GpuReadsBack | internal/store/ingest.go:196-210 | each GPU metric is found with its own figures and the total the report states for that GPU |
| ReadBack.NodeReadsBack | internal/store/ingest.go:49-71 | the node row has the report's agent columns and fingerprint and the receive time, keeps its first-seen time and token, and no other node's row changes |
| ReadBack.RegistrationReadsBack | internal/store/store.go:122-203 | a known node gets new agent columns and a new token and keeps what reports said; a new one starts empty; only a clock behind the token undoes it |
| ReadBack.FilesystemCurrentReadsBack | db/migrations/V001__monitoring_schema.sql:487-516 | the current row becomes the stored sample unless it shows a later minute |
| ReadBack.NetworkCurrentReadsBack | db/migrations/V001__monitoring_schema.sql:518-566 | the current row becomes the stored sample with the report's seconds unless it shows a later minute |
| ReadBack.GpuCurrentReadsBack | db/migrations/V007__gpu_history_metrics.sql:52-89 | the current row becomes the stored sample with the report's own times unless it shows a later minute |
| ReadBack.TemperatureReadsBack | internal/store/ingest.go:223-246 | each temperature is found with the report's minute and times unless a later report's are shown |
| ReadBack.StorageReadsBack | internal/store/ingest.go:248-284 | each storage metric is found under the active device row of its key, likewise |
| Stores.Store.Register | internal/store/store.go:122-203 | a known node keeps its fingerprint and first-seen time; all invariants are kept |
| Stores.Store.Ingest | internal/store/ingest.go:14-221 | the transaction commits exactly the specified new database or leaves it unchanged and reports the specified reason |
| Stores.Store.Post | internal/server/http.go:118-129 | the handler refuses exactly the invalid reports, and otherwise answers with the exact outcome |
| Stores.Store.RunMaintenance | internal/server/maintenance.go:25-41 | a cycle changes the history tables only, as specified, and keeps all invariants |
| Runs.State | internal/store/ingest.go:14-221 | after every run of registrations, posts and cycles: one active row per key, no orphan address, true fingerprints, CHECKs, foreign keys, partitions, and current rows that agree with the samples |
| Runs.CycleKeepsWf | db/migrations/V007__gpu_history_metrics.sql:187-433 | a maintenance cycle keeps all of these |
| SchemaChecks.ValidMeets | internal/report/validate.go:68-144 | a valid inventory meets every column CHECK of the inventory tables |
| SchemaChecks.RowsMeetChecks | db/migrations/V001__monitoring_schema.sql:81-205 | after every run every row of the inventory and health tables, closed ones included, meets its column CHECKs |
| RunInventory.HistoryIsKept | internal/store/ingest.go:308-594 | over every run no inventory row disappears, changes identity, or changes at all once removed |
| RunInventory.ReturningKeyGetsNewRow | internal/store/ingest.go:330-361 | a key that was not active and is active later has a row that did not exist before |
| ShownInventory.ProjectedIsShown | internal/store/ingest.go:363-594 | rows that show the normal form of an inventory show the inventory as it was sent, every column of every table |
| RunInventory.ActiveRowsShowLastReport | internal/store/ingest.go:72-76 | after every run a node's active rows are one for each resource and inet value of its last committed report, with the columns that report states |
| AlwaysSyncing.WhoCommits | internal/store/ingest.go:67-76 | between databases alike but for last-seen times, the service that always syncs commits exactly those of the other's reports that no active row is younger than |
| AlwaysSyncing.SkippingRefinesSyncing | internal/store/ingest.go:72-76 | over every run, its own rollbacks included, a service that always syncs has the same fingerprints and inventory rows, ids included, but for last-seen times |
| AlwaysSyncing.LostByAlwaysSyncing | internal/store/ingest.go:72-76 | after every run it loses exactly the unchanged reports received before an active row was first seen |
| SmallReports.SmallReportIsValid | internal/report/validate.go:16-66 | a concrete report with one processor passes `Validate` |
| SmallReports.OnlyAlwaysSyncingRollsBack | internal/store/ingest.go:72-76 | a run and a report the service commits and the always-syncing one rolls back |
| RunSamples.LastReportWins | internal/store/ingest.go:94-210 | after every run the main, filesystem, network and GPU rows of a minute of a node are exactly those of the last report committed for it, until its day expires |
| RunSamples.UnreportedMinuteIsEmpty | internal/store/ingest.go:94-210 | a minute never reported for, or expired since, has no row in any sample table |
| RunSamples.ReportFillsSlot | internal/store/ingest.go:145-153 | a report replaces the rows of its own minute and node wholly and no others |
| RunCurrent.NodeRowIsReplay | db/migrations/V003__disk_io_metrics.sql:37-90 | after every run a node's current row is the replay of its committed samples |
| RunCurrent.OrderOfReportsIrrelevant | db/migrations/V003__disk_io_metrics.sql:37-90 | runs that commit the same reports of a node for distinct minutes leave it the same current row in any order |
| RunCurrent.HealthIsOneReport | internal/store/ingest.go:211-306 | after every run temperature and storage-health rows are each one committed report's whole list, with the exact condition for it to be the latest |
| RunCurrent.HealthMovesForward | internal/store/ingest.go:286-306 | at every step of every run a node's health rows change only by its own accepted report, to that report's minute, which no replaced row is later than |
| RunCurrent.ShownMinuteNeverFalls | internal/store/ingest.go:286-306 | over every stretch of a run during which a node has health rows, their minute never falls |
| Resends.ResendChangesOnlyTimes | internal/store/ingest.go:94-221 | committing a report again changes nothing but receive times |
| Resends.RetryIsHarmless | internal/server/http.go:118-129 | over every run, posting an accepted report again changes nothing but receive times |
| SettledHours.ReportableIff | internal/report/validate.go:37-42 | a report for an hour can be accepted exactly from five minutes before it until 25 hours after its start |
| SettledHours.SamplesAreFinal | internal/report/validate.go:37-42 | from then on the hour's samples never change, until a cycle drops their day, and then all of them are gone |
| SettledHours.SomeCycleSettles | internal/server/maintenance.go:11-23 | with cycles at most an hour apart, one starts in the hour after that instant |
| SettledHours.HourStaysSettled | internal/server/maintenance.go:32-39 | from that cycle on the hour's rows equal the aggregates of its final samples, whatever later cycles do, until their month is dropped |
| SettledHours.EveryHourSettles | internal/server/maintenance.go:11-41 | the three facts together for every hour of every run |
| SettledHours.SettledRowsSay | internal/server/maintenance.go:11-41 | so every column of every settled row is what it is named for, over the final samples, and over those in the tables as long as their day is kept |
| PromptReports.BucketsReady | db/migrations/V001__monitoring_schema.sql:734-734 | in every run, for six days after a cycle every acceptable bucket has its partitions |
| PromptReports.NothingBeyondTheSeventhDay | db/migrations/V001__monitoring_schema.sql:734-734 | in every run of forward time no raw partition lies beyond the seventh day after the last cycle |
| PromptReports.BucketReadyIff | db/migrations/V001__monitoring_schema.sql:734-734 | an acceptable bucket has its partition exactly when its day is at most that one |
| PromptReports.PromptReportCommitsIff | internal/store/ingest.go:14-221 | with receive times in order, a validated report of a known node is committed exactly when its day is at most that one |
| PromptReports.PromptReportCommits | internal/store/ingest.go:14-221 | a validated report of a known node commits whenever its receive time is not behind those committed or the node's token, and the last cycle is at most six days old |
| PromptReports.FirstReportCommits | internal/store/ingest.go:14-221 | from the empty database, registration and one cycle are enough for any validated report to be committed |
| Versions.MatchReleaseIff | internal/version/version.go:9-9 | the matcher finds the groups of every text of the pattern's form and of no other |
| Versions.SplitJoins | internal/version/version.go:54-56 | splitting a prerelease cuts at every dot and loses nothing |
| Versions.ParseIff | internal/version/version.go:9-58 | a text is a version exactly when it spells a release, with or without a leading `v`, whose numbers fit 64 bits, and is read as those numbers and identifiers |
| Versions.NormalizeIff | internal/version/version.go:16-22 | the normal form is the text without its blanks and its `v`, starting with a digit |
| Versions.NormalizeKeepsVersion | internal/version/version.go:16-22 | the normal form is the same version and its own normal form |
| Versions.ComparePrereleaseLists | internal/version/version.go:60-96 | the index loop computes the lexicographic order of identifiers |
| Versions.CompareVersions | internal/version/version.go:24-39 | the loops compute the order, or nothing when a text does not parse |
| Versions.CompareIsPreorder | internal/version/version.go:24-39 | total on parseable texts, antisymmetric in sign, zero exactly on equal parsed forms |
| Versions.CompareTransitive | internal/version/version.go:24-109 | transitive across numeric and other identifiers |
| Versions.CompareMatchesSemVer | internal/version/version.go:60-109 | the precedence of section 11 of Semantic Versioning 2.0.0, for identifiers it allows and below 2^64 |
| ShellVersions.VersionIsNewer | macos-agent/server-status-agent:682-727 | the shell function with its early returns and one-based loops computes its order |
| ShellVersions.NewerIff | macos-agent/server-status-agent:682-693 | the shell, too, reads a release after an optional `v`, and calls nothing newer that is none |
| ShellVersions.ShellAgrees | macos-agent/server-status-agent:682-727 | newer exactly when the Go comparison is negative, for versions without surrounding blanks, empty or leading-zero identifiers, and numbers below 2^63 |
| ShellVersions.ShellIgnoresPadding | macos-agent/server-status-agent:704-725 | on all non-empty identifiers below 2^63 the shell's order is the Go order of the identifiers without leading zeros |
| ShellVersions.VersionsAgreeIff | macos-agent/server-status-agent:682-727 | without the restriction on leading zeros, the exact condition for the shell and the Go comparison to agree on two versions |
| ShellVersions.LeadingZeroDisagrees | macos-agent/server-status-agent:712-725 | Go calls 1.0.0-1 newer than 1.0.0-01, the shell does not |
| Checksums.UpdateChecksumForAsset | internal/agent/updater.go:180-195 | the scan returns the first valid digest listed for the asset |
| Checksums.WrittenReadsBack | internal/agent/updater.go:180-195 | a checksums file of digests and names reads back as its entries |
| Checksums.LowerIsSameDigest | internal/agent/updater.go:180-195 | lower-casing a digest keeps the value of every digit |
| ReleaseCaches.ReadAlikeIff | internal/server/release_cache.go:329-354 | server and agent read the same digest exactly when no line lists the asset, or the file is complete and its first and last lines for the asset give one digest |
| SelfUpdate.Agent.Apply | internal/agent/updater.go:49-114 | the executable is replaced exactly when every check passes and is otherwise unchanged; no temporary file stays |
| SelfUpdate.Agent.Round | internal/agent/run.go:43-50 | a receipt carries a directive exactly when the agent is older, and the agent applies it |
| SelfUpdate.ReplacementIsVerified | internal/agent/updater.go:197-209 | what is installed has the listed digest, is newer than what it replaces, and is the directed version |
| SelfUpdate.FirstDigestIff | internal/agent/updater.go:180-195 | a digest is found exactly when the first line that names one for the program names it |
| SelfUpdate.RoundReplacesIff | internal/agent/updater.go:49-114 | a round replaces the program exactly when the agent is older, nothing goes wrong, the digest is the one listed for its own architecture, and the program calls itself the release |
| SelfUpdate.VersionsOnlyGrow | internal/agent/updater.go:59-61 | under any directives and outcomes the installed version strictly increases at each replacement and never returns |
| SelfUpdate.OneReplacementPerRelease | internal/server/http.go:134-136 | while the server stays on one release, nothing is replaced and no directive sent after the first replacement |
| ReleaseCaches.ParseReleaseChecksums | internal/server/release_cache.go:329-354 | the scan yields the last valid digest of each known asset, and fails exactly when a Linux program has none |
| ReleaseCaches.ReleaseCache.Ensure | internal/server/release_cache.go:221-242 | a fresh file is used, a stale one only when no download succeeds, and a failure changes nothing |
| ReleaseCaches.EnsuredIsFresh | internal/server/release_cache.go:221-242 | a kept file costs no download, any other one; what is used is as it was only when kept or nothing was brought, and else what was brought, stored now |
| ReleaseCaches.ReleaseCache.BundledAssetPath | internal/server/release_cache.go:169-211 | a bundled asset is answered exactly when its digest is the listed one |
| ReleaseCaches.ReleaseCache.Serve | internal/server/release_cache.go:106-167 | the request has the specified answer, files and number of downloads |
| ReleaseCaches.ServedIsVerified | internal/server/release_cache.go:106-167 | for every cache content and upstream: a served asset has the digest its checksums then in place list, a failure after a mismatch leaves it absent, at most four downloads are made, no other file is touched |
| ReleaseCaches.ServedIsFresh | internal/server/release_cache.go:106-167 | of a served request, checksums and asset are each as before and kept, ten minutes for the moving release, or a download for them brought nothing, or they are what upstream sent in this call |
| ReleaseCaches.KeptIsServed | internal/server/release_cache.go:106-167 | kept files that match are served without a download |
| ReleaseCaches.MovedReleaseHeals | internal/server/release_cache.go:141-165 | stale or mismatched files of the moving release are replaced and served by two downloads |
| ReleaseCaches.BundleDecides | internal/server/release_cache.go:169-211 | a bundled version is answered from the bundle alone, exactly when its file is the listed one |
| ReleaseCaches.CorruptAssetHeals | internal/server/release_cache.go:141-165 | a corrupt cached asset of a tagged release is replaced and served by one download of the listed file |
| Smart.MatchBlockDevice | internal/agent/health.go:236-245 | the first device with the serial number, world-wide name or name of the candidate, or none |
| SmartMerge.SampleIsDeviceIff | internal/agent/health.go:236-245 | a sample is a device with its serial number or world-wide name, or, unless read through a controller, with its name |
| SmartMerge.ControllerMembersStayApart | internal/agent/health.go:183-208 | disks behind controllers with serial numbers of their own each get a device and a health row, whatever names they share |
| SmartReadings.FoundSays | internal/agent/health.go:210-234 | key, name and columns of a device are the first text that is not blank of each list, and the document's own figures |
| SmartReadings.MergedSays | internal/agent/health.go:247-269 | a listed device keeps name and kind and takes over what SMART knows |
| SmartReadings.RaidTypeIff | internal/agent/health.go:271-279 | a type is a controller's exactly when one of the seven names starts it or follows a plus sign in it |
| SmartReadings.SmartUintIff | internal/agent/health.go:387-397 | a number is read exactly from digits below 2^63, blanks around them aside |
| SmartReadings.HealthReads | internal/agent/health.go:281-346 | every figure of the metric comes from its own place in the document, NVMe before general readings, SCSI before both, the last attribute of each id |
| SmartReadings.ScsiSumIs | internal/agent/health.go:313-331 | below 2^64 the SCSI sum leaves nothing out |
| SmartReadings.BitsAreDigits | internal/agent/health.go:353-369 | the flags of the exit status are its binary digits |
| Smart.StorageHealthFromSmart | internal/agent/health.go:281-385 | the loops and the two flags compute the specified metric |
| Smart.HealthIsConsistent | internal/agent/health.go:340-385 | status, level and reasons pass the validator, and the level is critical, warning, healthy or unknown exactly as reasons and status dictate |
| Smart.ReasonsExplained | internal/agent/health.go:353-376 | each of the twelve reasons stands for exactly its own finding |
| Smart.CountersFitIff | internal/agent/health.go:313-329 | counters fit bigint exactly when the SCSI error sum does |
| Smart.HealthPassesIff | internal/report/validate.go:252-292 | the metric passes the validator exactly when temperature, wear and SCSI sum are in range |
| Smart.MergeSmartSamples | internal/agent/health.go:183-208 | the merge loop computes the specified devices and health lists, sorted |
| SmartMerge.MergeMeetsValidator | internal/agent/health.go:183-208 | of the returned lists: health keys are usable, distinct and name returned devices; inventory keys, names and kinds survive; each health row passes the validator exactly when the readings it was made from are in range |
| SmartMerge.DevicesStayValid | internal/agent/health.go:210-269 | merged and added devices pass the validator's test of a device |
| SmartMerge.KeysStayDistinctIff | internal/agent/health.go:193-200 | one sample keeps device keys distinct exactly when it is a known device or its key is free |
| SmartMerge.MergedInventoryValidIff | internal/agent/health.go:183-208 | the inventory with the returned devices is valid exactly when they are at most 4096 and no sample is new under a taken key |
| SmartMerge.PaddedSerialRejected | internal/agent/collector.go:487-493 | a disk keyed by its serial number, padded by smartctl behind a controller, makes the inventory invalid |
| SmartMerge.LargeSumRejected | internal/agent/health.go:313-331 | SCSI counters that fit bigint singly but not together make the metrics invalid |
| Counters.CounterDelta32 | windows-agent/collector_windows.go:498-503 | the delta is the difference modulo 2^32 |
| Counters.DeltasAreDifferences | windows-agent/collector_windows.go:466-491 | every reported delta is the difference of its own two readings modulo 2^32, packet sums as if they never wrapped |
| Counters.Collector.CollectNetworkInterfaces | windows-agent/collector_windows.go:420-496 | the loop over interfaces computes the round |
| Counters.RoundReportsEach | windows-agent/collector_windows.go:420-496 | one metric for each interface that is no loopback, in order |
| Counters.MetricSays | windows-agent/collector_windows.go:420-496 | after any rounds a metric says whether its interface is up, its totals, and the differences to the last row it was read with |
| Counters.StateFollowsReadings | windows-agent/collector_windows.go:466-491 | in both directions an interface's state and the deltas it reports depend on its own readings only, however many rounds it was missing from |
| Counters.TotalIsTrueCount | windows-agent/collector_windows.go:466-491 | the 64-bit total is the true count exactly when the first true count was below 2^32 |
| Counters.TotalsGrowAsReported | windows-agent/collector_windows.go:466-503 | after any rounds and readings the total of each direction is congruent to the last raw value and has grown by the reported deltas |
| Counters.TotalsAreRight | windows-agent/collector_windows.go:466-503 | after any rounds the total of each direction is the true count exactly when that began below 2^32 |
| HistoryQueries.GroupIsFold | internal/store/query.go:790-808 | a group's aggregate is the fold of the rows of its bucket |
| HistoryQueries.OneJoinedRow | internal/store/query.go:822-823 | joining a sample to pre-aggregated groups gives exactly one row |
| HistoryQueries.PreAggregationIsDirect | internal/store/query.go:789-825 | the pre-aggregated query means the same as scanning each sample's minute |
| HistoryQueries.PointsSay | internal/store/query.go:809-825 | a minute's point has its sample's own columns, the greatest usage among its writable filesystems, and its traffic |
| HistoryQueries.TruncationIsFloorIff | internal/store/query.go:810-811 | the hour-relative truncation is the absolute floor exactly for interval lengths that divide the hour |
| HistoryQueries.RatePointsAre | internal/store/query.go:826-836 | the points are the buckets of the samples, each once, with the sums of exactly its samples |
| HistoryQueries.RatesConserveDeltas | internal/store/query.go:826-836 | rates times the seconds of their buckets add up to all deltas |
| HistoryQueries.AveragesAre | internal/store/query.go:826-836 | an averaged column is, once for each bucket, the average of the bucket's minutes |
| HistoryQueries.WindowConserved | internal/store/query.go:789-836 | for the whole query and each of the four rate columns these are all bytes of the window |
| HistoryWindows.JoinLosesNothing | internal/store/query.go:793-796 | the filesystem join keeps every sample of the window, by the foreign key |
| HistoryWindows.QueryAfterRun | internal/store/query.go:789-837 | after every run, for every node and window and in whatever order rows are scanned, the query means the direct scan and its four rates add up to the stored bytes |
| HistoryWindows.PointsAfterRun | internal/store/query.go:809-825 | after every run each minute's point reads the stored sample and the filesystems not mounted read-only |
| HistoryQueries.QueryGpuHistory | internal/store/query.go:750-787 | one series per device in order of first appearance, each with exactly its rows in order |
| HistoryQueries.DevicesInOrder | internal/store/query.go:750-787 | the series are the devices the rows name, each once, in the order of their first rows |
| HistoryQueries.PointsInOrder | internal/store/query.go:750-787 | the points of a series are the rows of its device, each once, in their order |

## Left out

- TLS, JSON encoding, request limits and retries with sleeps: plumbing around the state machine.
- UUID and IP syntax checks of `Validate`, NaN and infinite readings, and agent labels and operating-system details stored beside a node: no modelled property depends on them.
- `NULLIF` on texts, `macaddr` and `inet` text conversions: an address carries the value PostgreSQL reads from its text.
- SQL roles, grants, views, `real` and `numeric(20,2)` rounding, 32-bit integer columns: numbers are exact and tables hold what was stored.
- The `updated_at` columns and deletion of nodes, which no modelled code performs.
- Failing or overlapping maintenance cycles: a cycle is one atomic step at one instant.
- Partitions whose name carries no date, and default partitions: the schema creates none.
- Shell arithmetic at and above 2^63, and locales other than ASCII in the shell's text comparison.
- Lines longer than a scanner's buffer, read errors, and non-regular files in the release cache; the race between returning a path and opening it.
- Restart and relaunch of the updated agent, and changes others make to its program file.
- Non-ASCII lower-casing of SMART device types, and the scan that calls smartctl.
- The hourly history queries, the Excel export, the history cache, the web interface, installers and hardware probing: they would add only simple members.
- ReleaseCaches.ReleaseCache.Serve: removals are assumed to succeed, as the source ignores their errors.
- API tokens other than when a node's live token was created and last used; expiry and disabled nodes.
- Acceptance.ValidatedOutcome: does not model values a column cannot take though `Validate` lets them through (NUL in a text, integers beyond 32 bits, a `max_frequency_mhz` beyond numeric(10,2), rates beyond numeric(20,2), a MAC address PostgreSQL cannot read); authentication, validation and commit happen at one instant.
- Validation.ValidateInventory: the CIDR syntax of addresses is not tested, because an address already carries its value.
- Validation.Validate: the syntax of the agent's UUID and primary IP, and the zero time, are not tested.
