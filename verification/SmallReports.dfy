/** One concrete report, and what the two services of `AlwaysSyncing` make of it when it is sent twice. */
module SmallReports {
  import opened Text
  import opened Clock
  import opened Reports
  import opened Sorting
  import opened Inventories
  import opened InventoryTables
  import opened NetworkTables
  import opened NetworkFacts
  import opened InventoryDatabase
  import opened Samples
  import opened Rollups
  import opened Partitions
  import opened Database
  import opened Ingestion
  import opened Acceptance
  import opened Runs
  import opened PromptReports
  import opened AlwaysSyncing

  function Host(): AgentInfo {
    AgentInfo("host", "linux", "amd64", "1.0.0", "")
  }

  function OneCpu(): Inventory {
    Inventory([Item("cpu0", CpuPackage(0, "", "model", 1, 1, 0, 0, Double(0, 0)))], [], [], [], [], [])
  }

  function Idle(): Metrics {
    Metrics(CpuMetrics(0.0, 0.0, 0.0, 0.0), MemoryMetrics(0, 0, 0, 0, 0, 0, 0, 0), DiskMetrics(0, 0, 0, 0, 0, 0), [], [], [], [], [])
  }

  function SmallReport(digest: Digest, at: Instant): Report {
    Report(REPORT_VERSION, at, 60, Fingerprint(digest, OneCpu()), Host(), OneCpu(), Idle())
  }

  lemma NotBlank(s: string)
    requires Trimmed(s) && s != ""
    ensures !Blank(s)
  {
    TrimmedIsFixed(s);
  }

  lemma HostIsValid()
    ensures ValidAgent(Host())
  {
    var a := Host();
    NotBlank(a.hostname);
    NotBlank(a.osName);
    NotBlank(a.architecture);
    NotBlank(a.agentVersion);
    hide Blank;
  }

  lemma OneCpuIsValid()
    ensures ValidInventory(OneCpu())
  {
    var cpu := OneCpu().cpuPackages[0];
    NotBlank(cpu.key);
    NotBlank(cpu.attrs.modelName);
    hide Blank, TrimSpace;
    assert UsableKeys(OneCpu().cpuPackages) && forall x :: x in OneCpu().cpuPackages ==> x == cpu;
  }

  lemma IdleIsValid(inv: Inventory)
    ensures ValidMetrics(inv, Idle())
  {
    hide Blank, TrimSpace, KeysOf;
  }

  lemma SmallReportIsValid(digest: Digest, at: Instant)
    ensures Validated(SmallReport(digest, at), digest, at)
  {
    HostIsValid();
    OneCpuIsValid();
    IdleIsValid(OneCpu());
    hide ValidAgent, ValidInventory, ValidMetrics, Fingerprint;
  }

  // ---- the run ----

  /** Registered and cycled at 0, one report received at 100. */
  function Sent(digest: Digest): seq<Step> {
    [Register("n", Host(), 0), Cycle(0), Post("n", SmallReport(digest, 100), 100, 100)]
  }

  /** The same report again, received at 50. */
  function Again(digest: Digest): Step {
    Post("n", SmallReport(digest, 100), 100, 50)
  }

  lemma FirstIsAccepted(digest: Digest)
    requires GoodDigest(digest)
    ensures Accepted(State(digest, Sent(digest)[..2]), digest, Sent(digest)[2])
  {
    hide State, Accepted, Validated, SmallReport;
    SmallReportIsValid(digest, 100);
    assert Sent(digest)[..2] == [Register("n", Host(), 0), Cycle(0)];
    FirstReportCommits(digest, "n", Host(), 0, 0, Sent(digest)[2]);
  }

  lemma BeforeSent(digest: Digest)
    requires GoodDigest(digest)
    ensures var db := State(digest, Sent(digest)[..2]);
      && db.inventory == EmptyDb().inventory && "n" in db.nodes
      && db.nodes["n"] == Node(Host(), "", 0, 0, Token(0, None))
  {
    hide WfDb, WfInventory, Cycled, Validated, Ingest, SmallReport;
    var run := Sent(digest);
    assert run[..2][..1] == [run[0]] && [run[0]][..0] == [] && run[..2][1] == run[1];
    assert State(digest, []) == EmptyDb();
    assert State(digest, [run[0]]) == EmptyDb().(nodes := Registered(map[], "n", Host(), 0));
  }

  /** Rows of a table that was empty were first seen when they were written. */
  lemma FreshRow<O, T>(t: Table<O, T>, o: O, items: seq<Item<T>>, at: Instant, key: string)
    requires Wf(t) && t.rows == map[] && key in KeysOf(items)
    ensures exists id :: id in ActiveRowIds(Sync(t, o, items, at), o) && Sync(t, o, items, at).rows[id].firstSeen == at
  {
    hide Active, Sync;
    var r := Sync(t, o, items, at);
    SyncView(t, o, items, at);
    SyncStamped(t, o, items, at);
    ActiveAt(r, o);
    var id := Active(r, o)[key].id;
    assert Backed(r, o, key, Active(r, o)[key]);
    assert FirstWritten(r.rows[id], at);
    assert id in ActiveRowIds(r, o);
  }

  lemma AfterSent(digest: Digest)
    requires GoodDigest(digest)
    ensures var db := State(digest, Sent(digest));
      && "n" in db.nodes && Admits(db.nodes["n"], 50) && db.nodes["n"].fingerprint == SmallReport(digest, 100).inventoryFingerprint
      && !SeenByThen(db.inventory, "n", 50)
  {
    hide State, WfDb, WfInventory, IsStep, Accepted, SeenByThen, SmallReport, Validated, ProjectsInventory, ExtendsInventory, Apply;
    var run := Sent(digest);
    var before, s := State(digest, run[..2]), run[2];
    StateStep(digest, run, 2);
    assert run[..3] == run;
    FirstIsAccepted(digest);
    BeforeSent(digest);
    AcceptedFacts(before, digest, s);
    SmallReportIsValid(digest, 100);
    FingerprintIsSet(s.report, digest, 100);
    StepSyncs(before, State(digest, run), s.node, AsReceived(s.report), s.receivedAt);
    CpuWasSynced(digest, before, State(digest, run), s.report);
  }

  lemma StepSyncs(before: Db, after: Db, node: NodeId, r: Report, receivedAt: Instant)
    requires WfInventory(before.inventory) && IsStep(before, after, node, r, receivedAt)
    ensures node in before.nodes && after.nodes == before.nodes[node := Seen(before.nodes[node], r, receivedAt)]
    ensures after.inventory == SyncedInventory(before, node, r, receivedAt)
  {
    hide WfInventory, RowsFailure, HealthFailure, WithSamples, WithCurrent, WithHealth, ContributionOf, Resolved, ActiveSetsOf,
      InventoryChecked, SyncedInventory, Seen;
  }

  lemma CpuWasSynced(digest: Digest, before: Db, after: Db, r: Report)
    requires WfInventory(before.inventory) && before.inventory == EmptyDb().inventory && r == SmallReport(digest, 100)
    requires "n" in before.nodes && before.nodes["n"] == Node(Host(), "", 0, 0, Token(0, None)) && r.inventoryFingerprint != ""
    requires after.nodes == before.nodes["n" := Seen(before.nodes["n"], AsReceived(r), 100)]
    requires after.inventory == SyncedInventory(before, "n", AsReceived(r), 100)
    ensures "n" in after.nodes && Admits(after.nodes["n"], 50) && after.nodes["n"].fingerprint == r.inventoryFingerprint
    ensures !SeenByThen(after.inventory, "n", 50)
  {
    var items := Normalize(OneCpu()).cpuPackages;
    assert "cpu0" in KeysOf(items) by {
      assert items == [OneCpu().cpuPackages[0]];
      assert items[0].key == "cpu0";
    }
    hide WfInventory, KeysOf, ActiveRowIds, Sync, Normalize, SyncNetwork;
    assert after.inventory == SyncInventory(before.inventory, "n", Normalize(OneCpu()), 100);
    FreshRow(before.inventory.cpuPackages, "n", items, 100, "cpu0");
  }

  /** The service that skips commits the second sending, the one that always syncs rolls it back. */
  lemma OnlyAlwaysSyncingRollsBack(digest: Digest)
    requires GoodDigest(digest)
    ensures Accepted(State(digest, Sent(digest)), digest, Again(digest))
    ensures !AcceptedAlways(AlwaysState(digest, Sent(digest)), digest, Again(digest))
  {
    var run, s := Sent(digest), Again(digest);
    hide State, AlwaysState, WfDb, WfInventory, SeenByThen, DayReady, Ingest, SmallReport, Validated, AcceptedAlways;
    SmallReportIsValid(digest, 100);
    AfterSent(digest);
    var db := State(digest, run);
    WindowOfSmall(digest);
    BucketsReady(digest, run, 1, 100, s.report.collectedAt);
    ValidatedOutcome(db, digest, "n", s.report, 100, 50);
    LostByAlwaysSyncing(digest, run, s);
  }

  lemma WindowOfSmall(digest: Digest)
    ensures InTimeWindow(SmallReport(digest, 100).collectedAt, 100)
  {}
}
