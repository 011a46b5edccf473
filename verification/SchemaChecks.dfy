/**
 * The column CHECKs of the inventory and health tables (db/migrations/V001__monitoring_schema.sql:81-205,
 * V005__nvidia_gpu_metrics.sql:10-14, V009__hardware_health_metrics.sql:12-54): no committed report ever leaves a row
 * that violates one, because `Validate` asks no less.
 */
module SchemaChecks {
  import opened Text
  import opened Clock
  import opened Reports
  import opened Sorting
  import opened Inventories
  import opened InventoryTables
  import opened NetworkTables
  import opened NetworkFacts
  import opened InventoryDatabase
  import opened Samples
  import opened Snapshots
  import opened Rollups
  import opened Partitions
  import opened Database
  import opened Ingestion
  import opened Acceptance
  import opened Runs
  import opened RunCurrent

  // ---- the CHECKs ----

  /** `btrim(s) <> ''`: some character is no blank. */
  predicate HasText(s: string) {
    exists i :: 0 <= i < |s| && s[i] != ' '
  }

  /** A bigint column. */
  predicate Bigint(n: int) {
    0 <= n <= 9_223_372_036_854_775_807
  }

  predicate CpuChecked(key: string, x: CpuPackage) {
    && HasText(key) && x.packageIndex >= 0 && x.physicalCores > 0 && x.logicalThreads >= x.physicalCores
    && x.performanceCores >= 0 && x.efficiencyCores >= 0 && x.maxFrequencyMHz.mantissa >= 0
    && (x.performanceCores + x.efficiencyCores == 0 || x.performanceCores + x.efficiencyCores == x.physicalCores)
  }

  /** Zero is stored as no speed. */
  predicate MemoryChecked(key: string, x: MemoryModule) {
    HasText(key) && Bigint(x.sizeBytes) && x.sizeBytes > 0 && (x.speedMTs == 0 || x.speedMTs > 0)
  }

  predicate BlockDeviceChecked(key: string, x: BlockDevice) {
    HasText(key) && x.deviceKind in {"disk", "raid", "multipath", "virtual"} && Bigint(x.sizeBytes)
  }

  predicate MountChecked(key: string, x: Filesystem) {
    HasText(key) && HasText(x.mountPoint)
  }

  predicate NicChecked(key: string, x: Nic) {
    HasText(key) && HasText(x.name) && (x.mtu == 0 || x.mtu > 0) && (x.linkSpeedMbps == 0 || x.linkSpeedMbps >= 0)
  }

  predicate AddressChecked(inet: string, scope: string) {
    scope in {"host", "link", "private", "global", "multicast", "unknown"}
  }

  predicate GpuRowChecked(key: string, x: Gpu) {
    HasText(key) && x.index >= 0 && HasText(x.uuid) && HasText(x.modelName) && Bigint(x.memoryTotalBytes) && x.memoryTotalBytes > 0
  }

  predicate InCelsius(c: real) { -273.15 <= c <= 1000.0 }

  predicate SensorChecked(key: string, x: Temperature) {
    && HasText(key) && x.component in {"cpu", "motherboard", "gpu", "storage", "other"} && HasText(x.sensorLabel)
    && InCelsius(x.celsius) && (x.highCelsius.Some? ==> InCelsius(x.highCelsius.value))
    && (x.criticalCelsius.Some? ==> InCelsius(x.criticalCelsius.value))
  }

  predicate OptionalCount(n: Option<nat>) { n.Some? ==> Bigint(n.value) }

  predicate DriveChecked(x: StorageHealth) {
    && x.smartStatus in {"passed", "failed", "unknown"} && x.riskLevel in {"healthy", "warning", "critical", "unknown"}
    && (x.temperatureCelsius.Some? ==> InCelsius(x.temperatureCelsius.value))
    && OptionalCount(x.powerOnHours) && OptionalCount(x.errorCount) && OptionalCount(x.readErrorRateNormalized)
    && OptionalCount(x.readErrorRateRaw) && OptionalCount(x.reallocatedSectors) && OptionalCount(x.pendingSectors)
    && OptionalCount(x.uncorrectableSectors) && (x.percentageUsed.Some? ==> 0.0 <= x.percentageUsed.value <= 255.0)
  }

  ghost predicate AllRows<O, T>(t: Table<O, T>, checked: (string, T) -> bool) {
    forall id :: id in t.rows ==> checked(t.rows[id].key, t.rows[id].attrs)
  }

  /** All rows of the inventory tables, closed ones too. */
  ghost predicate InventoryMeets(inv: InventoryDb) {
    && AllRows(inv.cpuPackages, CpuChecked) && AllRows(inv.memoryModules, MemoryChecked) && AllRows(inv.blockDevices, BlockDeviceChecked)
    && AllRows(inv.filesystems, MountChecked) && AllRows(inv.net.nics, NicChecked) && AllRows(inv.net.addresses, AddressChecked)
    && AllRows(inv.gpus, GpuRowChecked)
  }

  ghost predicate HealthMeets(h: HealthDb) {
    && (forall k :: k in h.temperatures ==> SensorChecked(k.part, h.temperatures[k].value))
    && (forall k :: k in h.storage ==> DriveChecked(h.storage[k].value))
  }

  // ---- what a sync stores ----

  ghost predicate AllItems<T>(items: seq<Item<T>>, checked: (string, T) -> bool) {
    forall x :: x in items ==> checked(x.key, x.attrs)
  }

  lemma {:induction false} UpsertAllChecked<O, T>(t: Table<O, T>, o: O, items: seq<Item<T>>, at: Instant, checked: (string, T) -> bool)
    requires AllRows(t, checked) && AllItems(items, checked)
    ensures AllRows(UpsertAll(t, o, items, at), checked)
  {
    if items != [] {
      var n := |items| - 1;
      UpsertAllChecked(t, o, items[..n], at, checked);
      assert items[n] in items;
    }
  }

  lemma SyncChecked<O, T>(t: Table<O, T>, o: O, items: seq<Item<T>>, at: Instant, checked: (string, T) -> bool)
    requires AllRows(t, checked) && AllItems(items, checked)
    ensures AllRows(Sync(t, o, items, at), checked)
  {
    UpsertAllChecked(t, o, items, at, checked);
    hide UpsertAll;
  }

  ghost predicate InterfaceMeets(x: Item<NetworkInterface>) {
    && NicChecked(x.key, NicOf(x.attrs))
    && forall a :: a in x.attrs.addresses ==> AddressChecked(a.inet, a.scope)
  }

  lemma {:induction false} SyncNicsChecked(nt: NetTables, node: NodeId, items: seq<Item<NetworkInterface>>, at: Instant)
    requires WfNet(nt) && AllRows(nt.nics, NicChecked) && AllRows(nt.addresses, AddressChecked)
    requires forall x :: x in items ==> InterfaceMeets(x)
    ensures var r := SyncNics(nt, node, items, at); AllRows(r.nics, NicChecked) && AllRows(r.addresses, AddressChecked)
  {
    if items != [] {
      var n := |items| - 1;
      SyncNicsChecked(nt, node, items[..n], at);
      var before := SyncNics(nt, node, items[..n], at);
      assert items[n] in items && SyncNics(nt, node, items, at) == SyncNic(before, node, items[n], at);
      hide SyncNics;
      SyncNicChecked(before, node, items[n], at);
    }
  }

  lemma SyncNicChecked(nt: NetTables, node: NodeId, item: Item<NetworkInterface>, at: Instant)
    requires WfNet(nt) && AllRows(nt.nics, NicChecked) && AllRows(nt.addresses, AddressChecked) && InterfaceMeets(item)
    ensures var r := SyncNic(nt, node, item, at); AllRows(r.nics, NicChecked) && AllRows(r.addresses, AddressChecked)
  {
    hide Active, NicChecked, AddressChecked, Sync;
    var nic := Item(item.key, NicOf(item.attrs));
    assert AllRows(Upsert(nt.nics, node, nic, at), NicChecked);
    UpsertView(nt.nics, node, nic, at);
    var id := Active(Upsert(nt.nics, node, nic, at), node)[item.key].id;
    hide Upsert;
    var items := AddressItems(item.attrs.addresses);
    forall x | x in items ensures AddressChecked(x.key, x.attrs) {
      var i :| 0 <= i < |items| && items[i] == x;
      assert item.attrs.addresses[i] in item.attrs.addresses;
    }
    SyncChecked(nt.addresses, AddressOwner(node, id), items, at, AddressChecked);
  }

  lemma SyncNetworkChecked(nt: NetTables, node: NodeId, items: seq<Item<NetworkInterface>>, at: Instant)
    requires WfNet(nt) && AllRows(nt.nics, NicChecked) && AllRows(nt.addresses, AddressChecked)
    requires forall x :: x in items ==> InterfaceMeets(x)
    ensures var r := SyncNetwork(nt, node, items, at); AllRows(r.nics, NicChecked) && AllRows(r.addresses, AddressChecked)
  {
    SyncNicsChecked(nt, node, items, at);
    hide SyncNics, NicChecked, AddressChecked;
  }

  // ---- what `Validate` lets through ----

  lemma {:induction false} BlanksTrimAway(s: string)
    requires AllSpace(s)
    ensures Blank(s)
  {
    BlanksLeft(s);
  }

  lemma {:induction false} BlanksLeft(s: string)
    requires AllSpace(s)
    ensures TrimLeft(s) == ""
  {
    if s != "" {
      BlanksLeft(s[1..]);
    }
  }

  lemma TextIsThere(s: string)
    requires !Blank(s)
    ensures HasText(s)
  {
    if !HasText(s) {
      BlanksTrimAway(s);
    }
  }

  lemma UsableKeysHaveText<T>(items: seq<Item<T>>)
    requires UsableKeys(items)
    ensures forall x :: x in items ==> HasText(x.key)
  {
    hide Blank, HasText;
    forall x | x in items ensures HasText(x.key) {
      var i :| 0 <= i < |items| && items[i] == x;
      TextIsThere(items[i].key);
    }
  }

  lemma SortedItems<T>(items: seq<Item<T>>, checked: (string, T) -> bool)
    requires AllItems(items, checked)
    ensures AllItems(SortBy(KeyOf, items), checked)
  {
    hide SortBy;
    var sorted := SortBy(KeyOf, items);
    forall x | x in sorted ensures checked(x.key, x.attrs) {
      assert x in multiset(sorted);
      assert x in multiset(items);
      assert x in items;
    }
  }

  ghost predicate ListsMeet(inv: Inventory) {
    && AllItems(inv.cpuPackages, CpuChecked) && AllItems(inv.memoryModules, MemoryChecked) && AllItems(inv.blockDevices, BlockDeviceChecked)
    && AllItems(inv.filesystems, MountChecked) && AllItems(inv.gpus, GpuRowChecked)
    && (forall x :: x in inv.networkInterfaces ==> InterfaceMeets(x))
  }

  /** A valid inventory meets every CHECK. */
  lemma ValidMeets(inv: Inventory)
    requires ValidInventory(inv)
    ensures ListsMeet(inv)
  {
    hide Blank, HasText, UsableKeys;
    UsableKeysHaveText(inv.cpuPackages);
    UsableKeysHaveText(inv.memoryModules);
    UsableKeysHaveText(inv.blockDevices);
    UsableKeysHaveText(inv.filesystems);
    UsableKeysHaveText(inv.networkInterfaces);
    UsableKeysHaveText(inv.gpus);
    forall x | x in inv.filesystems ensures MountChecked(x.key, x.attrs) {
      TextIsThere(x.attrs.mountPoint);
    }
    forall x | x in inv.networkInterfaces ensures InterfaceMeets(x) {
      TextIsThere(x.attrs.name);
    }
    forall x | x in inv.gpus ensures GpuRowChecked(x.key, x.attrs) {
      TextIsThere(x.attrs.uuid);
      TextIsThere(x.attrs.modelName);
    }
  }

  lemma NormalMeets(inv: Inventory)
    requires ListsMeet(inv)
    ensures ListsMeet(Normalize(inv))
  {
    hide SortBy, CpuChecked, MemoryChecked, BlockDeviceChecked, GpuRowChecked, HasText, AddressChecked;
    SortedItems(inv.cpuPackages, CpuChecked);
    SortedItems(inv.memoryModules, MemoryChecked);
    SortedItems(inv.blockDevices, BlockDeviceChecked);
    SortedItems(inv.gpus, GpuRowChecked);
    SortedItems(inv.filesystems, MountChecked);
    var r := Normalize(inv);
    forall x | x in r.filesystems ensures MountChecked(x.key, x.attrs) {
      var i :| 0 <= i < |r.filesystems| && r.filesystems[i] == x;
      assert SortBy(KeyOf, inv.filesystems)[i] in SortBy(KeyOf, inv.filesystems);
    }
    NormalInterfacesMeet(inv.networkInterfaces);
  }

  lemma NormalInterfacesMeet(items: seq<Item<NetworkInterface>>)
    requires forall x :: x in items ==> InterfaceMeets(x)
    ensures forall x :: x in OnAttrs(NormalInterface, SortBy(KeyOf, items)) ==> InterfaceMeets(x)
  {
    hide SortBy, AddressChecked, HasText;
    var sorted := SortBy(KeyOf, items);
    var normal := OnAttrs(NormalInterface, sorted);
    MemberOfMultiset(items, sorted);
    forall x | x in normal ensures InterfaceMeets(x) {
      var i :| 0 <= i < |normal| && normal[i] == x;
      assert sorted[i] in sorted;
      MemberOfMultiset(sorted[i].attrs.addresses, x.attrs.addresses);
    }
  }

  lemma SyncMeets(db: InventoryDb, node: NodeId, inv: Inventory, at: Instant)
    requires WfInventory(db) && InventoryMeets(db) && ListsMeet(inv)
    ensures InventoryMeets(SyncInventory(db, node, inv, at))
  {
    hide Sync, SyncNetwork, Wf, NoOrphans, AllRows, AllItems, InterfaceMeets;
    SyncChecked(db.cpuPackages, node, inv.cpuPackages, at, CpuChecked);
    SyncChecked(db.memoryModules, node, inv.memoryModules, at, MemoryChecked);
    SyncChecked(db.blockDevices, node, inv.blockDevices, at, BlockDeviceChecked);
    SyncChecked(db.filesystems, node, inv.filesystems, at, MountChecked);
    SyncChecked(db.gpus, node, inv.gpus, at, GpuRowChecked);
    SyncNetworkChecked(db.net, node, inv.networkInterfaces, at);
  }

  // ---- over every run ----

  lemma {:induction false} SnapshotRowsChecked<M, K>(resolve: string -> Option<K>, metrics: seq<Item<M>>, checked: (string, M) -> bool) returns (source: map<K, string>)
    requires forall i :: 0 <= i < |metrics| ==> resolve(metrics[i].key).Some?
    requires AllItems(metrics, checked)
    ensures source.Keys == SnapshotRows(resolve, metrics).Keys
    ensures forall k :: k in source ==> resolve(source[k]) == Some(k) && checked(source[k], SnapshotRows(resolve, metrics)[k])
  {
    if metrics == [] {
      source := map[];
    } else {
      var n := |metrics| - 1;
      source := SnapshotRowsChecked(resolve, metrics[..n], checked);
      assert metrics[n] in metrics;
      source := source[resolve(metrics[n].key).value := metrics[n].key];
    }
  }

  lemma ReplacedTemperatures(table: SnapshotTable<string, Temperature>, node: NodeId, s: Snapshot<string, Temperature>)
    requires forall k :: k in table ==> SensorChecked(k.part, table[k].value)
    requires forall k :: k in s.rows ==> SensorChecked(k, s.rows[k])
    ensures var r := Replaced(table, node, s); forall k :: k in r ==> SensorChecked(k.part, r[k].value)
  {
    hide SensorChecked;
  }

  lemma ReplacedDrives(table: SnapshotTable<Id, StorageHealth>, node: NodeId, s: Snapshot<Id, StorageHealth>)
    requires forall k :: k in table ==> DriveChecked(table[k].value)
    requires forall k :: k in s.rows ==> DriveChecked(s.rows[k])
    ensures var r := Replaced(table, node, s); forall k :: k in r ==> DriveChecked(r[k].value)
  {
    hide DriveChecked;
  }

  function DriveItemChecked(key: string, x: StorageHealth): bool { DriveChecked(x) }

  lemma MetricsMeet(inv: Inventory, m: Metrics)
    requires ValidMetrics(inv, m)
    ensures AllItems(m.temperatures, SensorChecked) && AllItems(m.storageHealth, DriveItemChecked)
  {
    hide Blank, HasText, UsableKeys, References, ValidReasons;
    UsableKeysHaveText(m.temperatures);
    forall x | x in m.temperatures ensures SensorChecked(x.key, x.attrs) {
      TextIsThere(x.attrs.sensorLabel);
    }
  }

  lemma CommitMeets(db: Db, digest: Digest, s: Step)
    requires WfDb(db, digest) && GoodDigest(digest) && WfInventory(db.inventory) && Accepted(db, digest, s)
    requires InventoryMeets(db.inventory)
    ensures InventoryMeets(Apply(db, digest, s).inventory)
  {
    hide WfDb, WfInventory, InventoryMeets, SyncInventory, ListsMeet, ValidInventory, ValidMetrics, Ingest, Validated, ProjectsInventory,
      ExtendsInventory, Normalize, InventoryChecked, RowsFailure, HealthFailure, WithSamples, WithCurrent, WithHealth, ContributionOf,
      Resolved, ActiveSetsOf;
    AcceptedFacts(db, digest, s);
    AcceptedIsValid(db, digest, s);
    ValidMeets(s.report.inventory);
    NormalMeets(s.report.inventory);
    if db.nodes[s.node].fingerprint != s.report.inventoryFingerprint {
      SyncMeets(db.inventory, s.node, Normalize(s.report.inventory), s.receivedAt);
    }
  }

  lemma CommitHealthMeets(db: Db, digest: Digest, s: Step)
    requires WfDb(db, digest) && GoodDigest(digest) && WfInventory(db.inventory) && Accepted(db, digest, s)
    requires HealthMeets(db.health)
    ensures HealthMeets(Apply(db, digest, s).health)
  {
    hide Apply, Accepted, WfDb, WfInventory, Replaced, ActiveSetsOf, SensorChecked, DriveChecked, SnapshotRows, ValidInventory,
      ValidMetrics;
    AcceptedIsValid(db, digest, s);
    HealthStep(db, digest, s, s.node);
    MetricsMeet(s.report.inventory, s.report.metrics);
    var r := AsReceived(s.report);
    assert r.metrics == s.report.metrics;
    var ids := ActiveSetsOf(Apply(db, digest, s).inventory, s.node);
    var sensors := SnapshotRowsChecked(SensorKey, r.metrics.temperatures, SensorChecked);
    ReplacedTemperatures(db.health.temperatures, s.node, TemperatureSnapshot(r, s.receivedAt));
    var drives := SnapshotRowsChecked(DeviceId(ids), r.metrics.storageHealth, DriveItemChecked);
    ReplacedDrives(db.health.storage, s.node, StorageSnapshot(ids, r, s.receivedAt));
  }

  lemma NothingToCheck()
    ensures InventoryMeets(EmptyDb().inventory) && HealthMeets(EmptyDb().health)
  {}

  /** After every run every row of the inventory and health tables, closed rows included, meets its column CHECKs. */
  lemma {:induction false} RowsMeetChecks(digest: Digest, run: seq<Step>)
    requires GoodDigest(digest)
    ensures InventoryMeets(State(digest, run).inventory) && HealthMeets(State(digest, run).health)
  {
    hide WfDb, WfInventory, Apply, Accepted, InventoryMeets, HealthMeets;
    if run == [] {
      NothingToCheck();
    } else {
      var n := |run| - 1;
      RowsMeetChecks(digest, run[..n]);
      var db, s := State(digest, run[..n]), run[n];
      assert State(digest, run) == Apply(db, digest, s);
      hide State;
      if Accepted(db, digest, s) {
        CommitMeets(db, digest, s);
        CommitHealthMeets(db, digest, s);
      } else {
        OthersKeep(db, digest, s);
      }
    }
  }

  lemma OthersKeep(db: Db, digest: Digest, s: Step)
    requires WfInventory(db.inventory) && !Accepted(db, digest, s)
    ensures Apply(db, digest, s).inventory == db.inventory && Apply(db, digest, s).health == db.health
  {
    hide WfInventory, Ingest, Validated, Cycled;
  }
}
