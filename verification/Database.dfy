/**
 * The whole database, and ingestion as one committed step (internal/store/ingest.go:14-221).
 *
 * `Ingest` here is the specification the transaction in `Stores` is proved against.
 */
module Database {
  import opened Text
  import opened Clock
  import opened Reports
  import opened Inventories
  import opened InventoryTables
  import opened NetworkTables
  import opened InventoryDatabase
  import opened Samples
  import opened Snapshots
  import opened Rollups
  import opened Partitions

  /** The node's one token that is not revoked. */
  datatype Token = Token(created: Instant, lastUsed: Option<Instant>)

  /** An unset fingerprint reads as the empty string. */
  datatype Node = Node(agent: AgentInfo, fingerprint: string, firstSeen: Instant, lastSeen: Instant, token: Token)

  datatype NetworkCurrent = NetworkCurrent(intervalSeconds: int, sample: NetworkMetrics)

  datatype GpuCurrent = GpuCurrent(
    collectedAt: Instant, receivedAt: Instant, utilizationPercent: real, memoryUsedBytes: nat)

  datatype CurrentDb = CurrentDb(
    nodes: map<NodeId, Latest<MainSample>>,
    filesystems: map<ResourceKey, Latest<FilesystemSample>>,
    network: map<ResourceKey, Latest<NetworkCurrent>>,
    gpus: map<ResourceKey, Latest<GpuCurrent>>)

  datatype HealthDb = HealthDb(temperatures: SnapshotTable<string, Temperature>, storage: SnapshotTable<Id, StorageHealth>)

  datatype Db = Db(nodes: map<NodeId, Node>, inventory: InventoryDb, history: History, current: CurrentDb, health: HealthDb)

  datatype Outcome = Committed(db: Db) | RolledBack(reason: Failure)

  // ---- rows made from a report ----

  function BucketOf(r: Report): Minute { MinuteOf(r.collectedAt) }

  function MainOf(r: Report, receivedAt: Instant): MainSample {
    MainSample(r.collectedAt, receivedAt, r.intervalSeconds, r.metrics.cpu, r.metrics.memory, r.metrics.disk)
  }

  function FilesystemRow(m: FilesystemMetrics, f: Filesystem): FilesystemSample {
    if m.totalInodes != 0
    then FilesystemSample(m.totalBytes, m.usedBytes, m.availableBytes, Some(m.totalInodes), Some(m.usedInodes))
    else FilesystemSample(m.totalBytes, m.usedBytes, m.availableBytes, None, None)
  }

  function NetworkRow(m: NetworkMetrics, n: Nic): NetworkMetrics { m }

  /** The memory total is the one of the device row, not of the report. */
  function GpuRow(m: GpuMetrics, g: Gpu): GpuSample {
    GpuSample(m.utilizationPercent, g.memoryTotalBytes, m.memoryUsedBytes)
  }

  // ---- CHECK constraints of the sample tables ----

  predicate MainChecked(s: MainSample) {
    && 1 <= s.intervalSeconds <= 3600 && 0.0 <= s.cpu.usagePercent <= 100.0
    && s.cpu.load1 >= 0.0 && s.cpu.load5 >= 0.0 && s.cpu.load15 >= 0.0
    && s.memory.usedBytes <= s.memory.totalBytes && s.memory.availableBytes <= s.memory.totalBytes
    && s.memory.cachedBytes <= s.memory.totalBytes && s.memory.buffersBytes <= s.memory.totalBytes
    && s.memory.swapUsedBytes <= s.memory.swapTotalBytes
  }

  predicate FilesystemChecked(s: FilesystemSample) {
    && s.usedBytes <= s.totalBytes && s.availableBytes <= s.totalBytes
    && (s.usedInodes.Some? && s.totalInodes.Some? ==> s.usedInodes.value <= s.totalInodes.value)
  }

  predicate NetworkChecked(s: NetworkMetrics) { true }

  predicate GpuChecked(s: GpuSample) {
    0.0 <= s.utilizationPercent <= 100.0 && s.memoryTotalBytes > 0 && s.memoryUsedBytes <= s.memoryTotalBytes
  }

  // ---- what the triggers read ----

  function SameSample(s: FilesystemSample): FilesystemSample { s }

  function WithInterval(main: MainSample): NetworkMetrics -> NetworkCurrent {
    (s: NetworkMetrics) => NetworkCurrent(main.intervalSeconds, s)
  }

  function WithTimes(main: MainSample): GpuSample -> GpuCurrent {
    (s: GpuSample) => GpuCurrent(main.collectedAt, main.receivedAt, s.utilizationPercent, s.memoryUsedBytes)
  }

  // ---- the transaction, stage by stage ----

  ghost function SyncedInventory(db: Db, node: NodeId, r: Report, receivedAt: Instant): InventoryDb
    requires node in db.nodes && WfInventory(db.inventory)
  {
    if db.nodes[node].fingerprint == r.inventoryFingerprint then db.inventory
    else SyncInventory(db.inventory, node, r.inventory, receivedAt)
  }

  lemma SyncedWf(db: Db, node: NodeId, r: Report, receivedAt: Instant)
    requires node in db.nodes && WfInventory(db.inventory)
    ensures WfInventory(SyncedInventory(db, node, r, receivedAt))
    ensures ExtendsInventory(db.inventory, SyncedInventory(db, node, r, receivedAt))
  {
    hide WfInventory, ExtendsInventory, SyncInventory;
    if db.nodes[node].fingerprint == r.inventoryFingerprint {
      ExtendsInventoryReflexive(db.inventory);
    } else {
      SyncInventoryRows(db.inventory, node, r.inventory, receivedAt);
    }
  }

  function Seen(n: Node, r: Report, receivedAt: Instant): Node {
    Node(r.agent, r.inventoryFingerprint, n.firstSeen, receivedAt, n.token.(lastUsed := Some(receivedAt)))
  }

  /** The CHECKs of the node row and of the token row on the times the transaction writes. */
  predicate Admits(n: Node, receivedAt: Instant) {
    n.firstSeen <= receivedAt && n.token.created <= receivedAt
  }

  /** The active ids the transaction reads after the optional sync. */
  datatype ActiveSets = ActiveSets(
    filesystems: map<string, Entry<Filesystem>>, nics: map<string, Entry<Nic>>,
    gpus: map<string, Entry<Gpu>>, blockDevices: map<string, Entry<BlockDevice>>)

  ghost function ActiveSetsOf(inv: InventoryDb, node: NodeId): ActiveSets
    requires WfInventory(inv)
  {
    ActiveSets(Active(inv.filesystems, node), Active(inv.net.nics, node), Active(inv.gpus, node), Active(inv.blockDevices, node))
  }

  predicate DayReady(partitions: set<Partition>, parent: Parent, minute: Minute) {
    Partition(parent, DayOfMinute(minute)) in partitions
  }

  function MainFailure(partitions: set<Partition>, minute: Minute, main: MainSample): Option<Failure> {
    if !DayReady(partitions, NodeSamples, minute) then Some(MissingPartition)
    else if !MainChecked(main) then Some(CheckViolation)
    else None
  }

  function FilesystemFailure(ids: ActiveSets, partitions: set<Partition>, r: Report): Option<Failure> {
    FirstFailure(ids.filesystems, r.metrics.filesystems, FilesystemRow, FilesystemChecked, DayReady(partitions, FilesystemSamples, BucketOf(r)))
  }

  function NetworkFailure(ids: ActiveSets, partitions: set<Partition>, r: Report): Option<Failure> {
    FirstFailure(ids.nics, r.metrics.network, NetworkRow, NetworkChecked, DayReady(partitions, NetworkSamples, BucketOf(r)))
  }

  function GpuFailure(ids: ActiveSets, partitions: set<Partition>, r: Report): Option<Failure> {
    FirstFailure(ids.gpus, r.metrics.gpus, GpuRow, GpuChecked, DayReady(partitions, GpuSamples, BucketOf(r)))
  }

  function SensorKey(key: string): Option<string> { Some(key) }

  function DeviceId(ids: ActiveSets): string -> Option<Id> {
    key => if key in ids.blockDevices then Some(ids.blockDevices[key].id) else None
  }

  function HealthFailure(ids: ActiveSets, health: HealthDb, node: NodeId, r: Report): Option<Failure> {
    var temperatures :=
      if CanBeReplaced(health.temperatures, node, BucketOf(r)) then FirstUnstorable(SensorKey, r.metrics.temperatures) else None;
    if temperatures.Some? then temperatures
    else if CanBeReplaced(health.storage, node, BucketOf(r)) then FirstUnstorable(DeviceId(ids), r.metrics.storageHealth)
    else None
  }

  function RowsFailure(ids: ActiveSets, db: Db, node: NodeId, r: Report, receivedAt: Instant): Option<Failure> {
    var partitions := db.history.partitions;
    if MainFailure(partitions, BucketOf(r), MainOf(r, receivedAt)).Some? then MainFailure(partitions, BucketOf(r), MainOf(r, receivedAt))
    else if FilesystemFailure(ids, partitions, r).Some? then FilesystemFailure(ids, partitions, r)
    else if NetworkFailure(ids, partitions, r).Some? then NetworkFailure(ids, partitions, r)
    else if GpuFailure(ids, partitions, r).Some? then GpuFailure(ids, partitions, r)
    else HealthFailure(ids, db.health, node, r)
  }

  /** What a report puts under its minute: the rows, by resource id. */
  datatype Contribution = Contribution(
    main: MainSample, filesystems: map<Id, FilesystemSample>, network: map<Id, NetworkMetrics>, gpus: map<Id, GpuSample>)

  ghost predicate Resolved(ids: ActiveSets, r: Report) {
    && (forall i :: 0 <= i < |r.metrics.filesystems| ==> r.metrics.filesystems[i].key in ids.filesystems)
    && (forall i :: 0 <= i < |r.metrics.network| ==> r.metrics.network[i].key in ids.nics)
    && (forall i :: 0 <= i < |r.metrics.gpus| ==> r.metrics.gpus[i].key in ids.gpus)
  }

  function ContributionOf(ids: ActiveSets, r: Report, receivedAt: Instant): Contribution
    requires Resolved(ids, r)
  {
    Contribution(
      MainOf(r, receivedAt),
      RowsOf(ids.filesystems, r.metrics.filesystems, FilesystemRow),
      RowsOf(ids.nics, r.metrics.network, NetworkRow),
      RowsOf(ids.gpus, r.metrics.gpus, GpuRow))
  }

  ghost function WithSamples(s: SampleDb, minute: Minute, node: NodeId, c: Contribution): SampleDb {
    SampleDb(
      s.main[MinuteKey(minute, node) := c.main],
      Placed(s.filesystems, minute, node, c.filesystems),
      Placed(s.network, minute, node, c.network),
      Placed(s.gpus, minute, node, c.gpus))
  }

  ghost function WithCurrent(s: CurrentDb, minute: Minute, node: NodeId, c: Contribution): CurrentDb {
    CurrentDb(
      TouchLatest(s.nodes, node, minute, c.main),
      Refreshed(s.filesystems, minute, node, Viewed(SameSample, c.filesystems)),
      Refreshed(s.network, minute, node, Viewed(WithInterval(c.main), c.network)),
      Refreshed(s.gpus, minute, node, Viewed(WithTimes(c.main), c.gpus)))
  }

  ghost predicate HealthResolved(ids: ActiveSets, r: Report) {
    forall i :: 0 <= i < |r.metrics.storageHealth| ==> DeviceId(ids)(r.metrics.storageHealth[i].key).Some?
  }

  function TemperatureSnapshot(r: Report, receivedAt: Instant): Snapshot<string, Temperature> {
    Snapshot(BucketOf(r), r.collectedAt, receivedAt, SnapshotRows(SensorKey, r.metrics.temperatures))
  }

  function StorageSnapshot(ids: ActiveSets, r: Report, receivedAt: Instant): Snapshot<Id, StorageHealth>
    requires HealthResolved(ids, r)
  {
    Snapshot(BucketOf(r), r.collectedAt, receivedAt, SnapshotRows(DeviceId(ids), r.metrics.storageHealth))
  }

  /** Unknown devices stop the transaction only when the snapshot is fresh enough to be stored. */
  ghost function WithHealth(h: HealthDb, node: NodeId, ids: ActiveSets, r: Report, receivedAt: Instant): HealthDb
    requires HealthFailure(ids, h, node, r).None?
  {
    HealthDb(
      Replaced(h.temperatures, node, TemperatureSnapshot(r, receivedAt)),
      if CanBeReplaced(h.storage, node, BucketOf(r)) then Replaced(h.storage, node, StorageSnapshot(ids, r, receivedAt)) else h.storage)
  }

  lemma NoFailureResolves(ids: ActiveSets, db: Db, node: NodeId, r: Report, receivedAt: Instant)
    requires RowsFailure(ids, db, node, r, receivedAt).None?
    ensures Resolved(ids, r) && HealthFailure(ids, db.health, node, r).None?
  {}

  /** The report as stored by one committed transaction, or why it is rolled back. */
  ghost function Ingest(db: Db, node: NodeId, r: Report, receivedAt: Instant): Outcome
    requires WfInventory(db.inventory)
  {
    if node !in db.nodes then RolledBack(UnknownNode)
    else if !Admits(db.nodes[node], receivedAt) then RolledBack(CheckViolation)
    else
      var inventory := SyncedInventory(db, node, r, receivedAt);
      if !InventoryChecked(inventory) then RolledBack(CheckViolation)
      else
        SyncedWf(db, node, r, receivedAt);
        var ids := ActiveSetsOf(inventory, node);
        var failure := RowsFailure(ids, db, node, r, receivedAt);
        if failure.Some? then RolledBack(failure.value)
        else
          NoFailureResolves(ids, db, node, r, receivedAt);
          var c := ContributionOf(ids, r, receivedAt);
          Committed(Db(
            db.nodes[node := Seen(db.nodes[node], r, receivedAt)],
            inventory,
            db.history.(samples := WithSamples(db.history.samples, BucketOf(r), node, c)),
            WithCurrent(db.current, BucketOf(r), node, c),
            WithHealth(db.health, node, ids, r, receivedAt)))
  }
}
