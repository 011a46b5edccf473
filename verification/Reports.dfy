/** What an agent sends, and the server's `Validate` (internal/report/types.go, internal/report/validate.go). */
module Reports {
  import opened Text
  import opened Clock

  /** An inventory resource or a metric: a key and the columns beside it. */
  datatype Item<+T> = Item(key: string, attrs: T)

  /** A finite 64-bit float, mantissa * 2^exponent in lowest terms. Inventories hold no other fractions. */
  datatype Double = Double(mantissa: int, exponent: int)

  datatype CpuPackage = CpuPackage(
    packageIndex: int, vendor: string, modelName: string, physicalCores: int, logicalThreads: int,
    performanceCores: int, efficiencyCores: int, maxFrequencyMHz: Double)

  datatype MemoryModule = MemoryModule(
    slotName: string, manufacturer: string, modelName: string, partNumber: string,
    serialNumber: string, memoryType: string, sizeBytes: nat, speedMTs: int)

  datatype BlockDevice = BlockDevice(
    deviceName: string, deviceKind: string, vendor: string, modelName: string,
    serialNumber: string, wwn: string, sizeBytes: nat, rotational: Option<bool>,
    protocol: string, smartDeviceType: string, raidPassthrough: bool)

  datatype Filesystem = Filesystem(
    uuid: string, deviceName: string, filesystemType: string, mountPoint: string, mountOptions: seq<string>)

  /** `text` is the CIDR text the agent sent; `inet` is the value PostgreSQL reads from it. */
  datatype Address = Address(text: string, inet: string, scope: string)

  datatype NetworkInterface = NetworkInterface(
    name: string, macAddress: string, mtu: int, linkSpeedMbps: int, addresses: seq<Address>)

  datatype Gpu = Gpu(index: int, uuid: string, modelName: string, memoryTotalBytes: nat)

  datatype Inventory = Inventory(
    cpuPackages: seq<Item<CpuPackage>>,
    memoryModules: seq<Item<MemoryModule>>,
    blockDevices: seq<Item<BlockDevice>>,
    filesystems: seq<Item<Filesystem>>,
    networkInterfaces: seq<Item<NetworkInterface>>,
    gpus: seq<Item<Gpu>>)

  datatype CpuMetrics = CpuMetrics(usagePercent: real, load1: real, load5: real, load15: real)

  datatype MemoryMetrics = MemoryMetrics(
    totalBytes: nat, usedBytes: nat, availableBytes: nat, cachedBytes: nat, buffersBytes: nat,
    swapTotalBytes: nat, swapUsedBytes: nat, uptimeSeconds: nat)

  datatype DiskMetrics = DiskMetrics(
    readBytesTotal: nat, writeBytesTotal: nat, readBytesDelta: nat, writeBytesDelta: nat,
    readOpsDelta: nat, writeOpsDelta: nat)

  datatype FilesystemMetrics = FilesystemMetrics(
    totalBytes: nat, usedBytes: nat, availableBytes: nat, totalInodes: nat, usedInodes: nat)

  datatype NetworkMetrics = NetworkMetrics(
    linkUp: bool, rxBytesTotal: nat, txBytesTotal: nat, rxBytesDelta: nat, txBytesDelta: nat,
    rxPacketsDelta: nat, txPacketsDelta: nat, rxErrorsDelta: nat, txErrorsDelta: nat,
    rxDroppedDelta: nat, txDroppedDelta: nat)

  datatype GpuMetrics = GpuMetrics(utilizationPercent: real, memoryUsedBytes: nat, temperatureCelsius: Option<real>)

  datatype Temperature = Temperature(
    component: string, sensorLabel: string, celsius: real, highCelsius: Option<real>, criticalCelsius: Option<real>)

  datatype StorageHealth = StorageHealth(
    smartAvailable: bool, smartEnabled: bool, smartStatus: string, riskLevel: string, riskReasons: seq<string>,
    temperatureCelsius: Option<real>, powerOnHours: Option<nat>, errorCount: Option<nat>,
    readErrorRateNormalized: Option<nat>, readErrorRateRaw: Option<nat>, reallocatedSectors: Option<nat>,
    pendingSectors: Option<nat>, uncorrectableSectors: Option<nat>, percentageUsed: Option<real>)

  datatype Metrics = Metrics(
    cpu: CpuMetrics, memory: MemoryMetrics, disk: DiskMetrics,
    filesystems: seq<Item<FilesystemMetrics>>, network: seq<Item<NetworkMetrics>>, gpus: seq<Item<GpuMetrics>>,
    temperatures: seq<Item<Temperature>>, storageHealth: seq<Item<StorageHealth>>)

  datatype AgentInfo = AgentInfo(
    hostname: string, osName: string, architecture: string, agentVersion: string, machineType: string)

  datatype Report = Report(
    version: int, collectedAt: Instant, intervalSeconds: int, inventoryFingerprint: string,
    agent: AgentInfo, inventory: Inventory, metrics: Metrics)

  const REPORT_VERSION := 1

  const MAX_BIGINT := 0x7fff_ffff_ffff_ffff

  // ---- keys ----

  ghost predicate UsableKeys<T>(items: seq<Item<T>>) {
    && (forall i :: 0 <= i < |items| ==> !Blank(items[i].key))
    && (forall i, j :: 0 <= i < j < |items| ==> TrimSpace(items[i].key) != TrimSpace(items[j].key))
  }

  ghost predicate DistinctKeys<T>(items: seq<Item<T>>) {
    forall i, j :: 0 <= i < j < |items| ==> items[i].key != items[j].key
  }

  lemma UsableKeysAreDistinct<T>(items: seq<Item<T>>)
    requires UsableKeys(items)
    ensures DistinctKeys(items)
  {
    forall i, j | 0 <= i < j < |items| ensures items[i].key != items[j].key {
      assert TrimSpace(items[i].key) != TrimSpace(items[j].key);
    }
  }

  /** `uniqueKeys`: no key is blank and no two agree once trimmed. */
  method UniqueKeys<T>(items: seq<Item<T>>) returns (ok: bool)
    ensures ok <==> UsableKeys(items)
  {
    var seen: set<string> := {};
    for i := 0 to |items|
      invariant seen == set j | 0 <= j < i :: TrimSpace(items[j].key)
      invariant UsableKeys(items[..i])
    {
      var value := TrimSpace(items[i].key);
      if value == "" || value in seen {
        assert Blank(items[i].key) || exists j :: 0 <= j < i && TrimSpace(items[j].key) == value;
        return false;
      }
      seen := seen + {value};
      assert items[..i + 1] == items[..i] + [items[i]];
    }
    assert items[..|items|] == items;
    return true;
  }

  ghost function KeysOf<T>(items: seq<Item<T>>): (keys: set<string>) {
    set i | 0 <= i < |items| :: items[i].key
  }

  // ---- inventory ----

  predicate ValidCpuPackage(item: CpuPackage) {
    var classified := item.performanceCores + item.efficiencyCores;
    && !Blank(item.modelName) && item.physicalCores >= 1 && item.logicalThreads >= item.physicalCores
    && item.packageIndex >= 0 && item.performanceCores >= 0 && item.efficiencyCores >= 0
    && item.maxFrequencyMHz.mantissa >= 0 && (classified == 0 || classified == item.physicalCores)
  }

  predicate ValidMemoryModule(item: MemoryModule) {
    0 < item.sizeBytes <= MAX_BIGINT && item.speedMTs >= 0
  }

  predicate ValidBlockDevice(item: BlockDevice) {
    && !Blank(item.deviceName) && item.sizeBytes <= MAX_BIGINT
    && item.deviceKind in {"disk", "raid", "multipath", "virtual"}
  }

  predicate ValidFilesystem(item: Filesystem) {
    !Blank(item.deviceName) && !Blank(item.filesystemType) && !Blank(item.mountPoint)
  }

  ghost predicate ValidInterface(item: NetworkInterface) {
    && !Blank(item.name) && item.mtu >= 0 && item.linkSpeedMbps >= 0
    && (forall i, j :: 0 <= i < j < |item.addresses| ==> item.addresses[i].text != item.addresses[j].text)
    && (forall a :: a in item.addresses ==> a.scope in {"host", "link", "private", "global", "multicast", "unknown"})
  }

  predicate ValidGpu(item: Gpu) {
    item.index >= 0 && !Blank(item.uuid) && !Blank(item.modelName) && 0 < item.memoryTotalBytes <= MAX_BIGINT
  }

  ghost predicate ValidInventory(inv: Inventory) {
    && |inv.cpuPackages| <= 1024 && |inv.memoryModules| <= 4096 && |inv.blockDevices| <= 4096
    && |inv.filesystems| <= 4096 && |inv.networkInterfaces| <= 4096 && |inv.gpus| <= 1024
    && UsableKeys(inv.cpuPackages) && (forall x :: x in inv.cpuPackages ==> ValidCpuPackage(x.attrs))
    && UsableKeys(inv.memoryModules) && (forall x :: x in inv.memoryModules ==> ValidMemoryModule(x.attrs))
    && UsableKeys(inv.blockDevices) && (forall x :: x in inv.blockDevices ==> ValidBlockDevice(x.attrs))
    && UsableKeys(inv.filesystems) && (forall x :: x in inv.filesystems ==> ValidFilesystem(x.attrs))
    && UsableKeys(inv.networkInterfaces) && (forall x :: x in inv.networkInterfaces ==> ValidInterface(x.attrs))
    && UsableKeys(inv.gpus) && (forall x :: x in inv.gpus ==> ValidGpu(x.attrs))
  }

  // ---- metrics ----

  predicate ValidTemperature(c: real) {
    -273.15 <= c <= 1000.0
  }

  predicate OptionalTemperature(c: Option<real>) {
    c.Some? ==> ValidTemperature(c.value)
  }

  predicate OptionalBigint(c: Option<nat>) {
    c.Some? ==> c.value <= MAX_BIGINT
  }

  predicate ValidMemory(m: MemoryMetrics) {
    && m.totalBytes <= MAX_BIGINT && m.swapTotalBytes <= MAX_BIGINT && m.uptimeSeconds <= MAX_BIGINT
    && m.usedBytes <= m.totalBytes && m.availableBytes <= m.totalBytes
    && m.cachedBytes <= m.totalBytes && m.buffersBytes <= m.totalBytes && m.swapUsedBytes <= m.swapTotalBytes
  }

  predicate ValidDisk(d: DiskMetrics) {
    && d.readBytesTotal <= MAX_BIGINT && d.writeBytesTotal <= MAX_BIGINT && d.readBytesDelta <= MAX_BIGINT
    && d.writeBytesDelta <= MAX_BIGINT && d.readOpsDelta <= MAX_BIGINT && d.writeOpsDelta <= MAX_BIGINT
  }

  predicate ValidFilesystemMetrics(m: FilesystemMetrics) {
    && m.totalBytes <= MAX_BIGINT && m.totalInodes <= MAX_BIGINT && m.usedInodes <= MAX_BIGINT
    && m.usedBytes <= m.totalBytes && m.availableBytes <= m.totalBytes
    && (m.usedInodes <= m.totalInodes || m.totalInodes == 0)
  }

  predicate ValidNetworkMetrics(m: NetworkMetrics) {
    && m.rxBytesTotal <= MAX_BIGINT && m.txBytesTotal <= MAX_BIGINT
    && m.rxBytesDelta <= MAX_BIGINT && m.txBytesDelta <= MAX_BIGINT
    && m.rxPacketsDelta <= MAX_BIGINT && m.txPacketsDelta <= MAX_BIGINT
    && m.rxErrorsDelta <= MAX_BIGINT && m.txErrorsDelta <= MAX_BIGINT
    && m.rxDroppedDelta <= MAX_BIGINT && m.txDroppedDelta <= MAX_BIGINT
  }

  predicate ValidGpuMetrics(m: GpuMetrics, memoryTotal: nat) {
    && 0.0 <= m.utilizationPercent <= 100.0 && OptionalTemperature(m.temperatureCelsius)
    && m.memoryUsedBytes <= MAX_BIGINT && m.memoryUsedBytes <= memoryTotal
  }

  predicate ValidTemperatureMetric(m: Temperature) {
    && m.component in {"cpu", "motherboard", "gpu", "storage", "other"} && !Blank(m.sensorLabel)
    && ValidTemperature(m.celsius) && OptionalTemperature(m.highCelsius) && OptionalTemperature(m.criticalCelsius)
  }

  predicate KnownReason(reason: string) {
    reason in {
      "smart_failed", "prefail_attribute", "nvme_critical_warning", "pending_sectors", "uncorrectable_sectors",
      "reallocated_sectors", "device_errors", "age_attribute", "device_error_log", "self_test_errors",
      "wear_exhausted", "wear_high"}
  }

  ghost predicate ValidReasons(reasons: seq<string>) {
    && |reasons| <= 32
    && (forall i :: 0 <= i < |reasons| ==> KnownReason(reasons[i]))
    && (forall i, j :: 0 <= i < j < |reasons| ==> reasons[i] != reasons[j])
  }

  predicate KnownStatus(status: string) {
    status in {"passed", "failed", "unknown"}
  }

  predicate KnownLevel(level: string) {
    level in {"healthy", "warning", "critical", "unknown"}
  }

  predicate ValidCounters(m: StorageHealth) {
    && OptionalBigint(m.powerOnHours) && OptionalBigint(m.errorCount)
    && OptionalBigint(m.readErrorRateNormalized) && OptionalBigint(m.readErrorRateRaw)
    && OptionalBigint(m.reallocatedSectors) && OptionalBigint(m.pendingSectors)
    && OptionalBigint(m.uncorrectableSectors)
  }

  ghost predicate ValidStorageHealth(m: StorageHealth) {
    && KnownStatus(m.smartStatus) && KnownLevel(m.riskLevel) && ValidReasons(m.riskReasons)
    && OptionalTemperature(m.temperatureCelsius)
    && (m.percentageUsed.Some? ==> 0.0 <= m.percentageUsed.value <= 255.0)
    && ValidCounters(m)
  }

  /** Every metric names a resource of the inventory it came with. */
  ghost predicate References<M, T>(metrics: seq<Item<M>>, resources: seq<Item<T>>) {
    forall i :: 0 <= i < |metrics| ==> metrics[i].key in KeysOf(resources)
  }

  ghost predicate ValidMetrics(inv: Inventory, m: Metrics) {
    && ValidMemory(m.memory) && ValidDisk(m.disk)
    && UsableKeys(m.filesystems) && References(m.filesystems, inv.filesystems)
    && (forall x :: x in m.filesystems ==> ValidFilesystemMetrics(x.attrs))
    && UsableKeys(m.network) && References(m.network, inv.networkInterfaces)
    && (forall x :: x in m.network ==> ValidNetworkMetrics(x.attrs))
    && UsableKeys(m.gpus) && References(m.gpus, inv.gpus)
    && (forall x, g :: x in m.gpus && g in inv.gpus && x.key == g.key ==> ValidGpuMetrics(x.attrs, g.attrs.memoryTotalBytes))
    && |m.temperatures| <= 4096 && |m.storageHealth| <= 4096
    && UsableKeys(m.temperatures) && (forall x :: x in m.temperatures ==> ValidTemperatureMetric(x.attrs))
    && UsableKeys(m.storageHealth) && References(m.storageHealth, inv.blockDevices)
    && (forall x :: x in m.storageHealth ==> ValidStorageHealth(x.attrs))
  }

  // ---- the report ----

  predicate InTimeWindow(collectedAt: Instant, now: Instant) {
    now - Hours(24) <= collectedAt <= now + Minutes(5)
  }

  predicate ValidAgent(a: AgentInfo) {
    && !Blank(a.hostname) && !Blank(a.osName) && !Blank(a.architecture) && !Blank(a.agentVersion)
    && a.machineType in {"", "physical", "virtual"}
  }

  /** Everything `Validate` asks except the fingerprint. */
  ghost predicate WellFormedReport(r: Report, now: Instant) {
    && r.version == REPORT_VERSION && ValidAgent(r.agent) && InTimeWindow(r.collectedAt, now)
    && 1 <= r.intervalSeconds <= 3600
    && 0.0 <= r.metrics.cpu.usagePercent <= 100.0
    && r.metrics.cpu.load1 >= 0.0 && r.metrics.cpu.load5 >= 0.0 && r.metrics.cpu.load15 >= 0.0
    && ValidInventory(r.inventory) && ValidMetrics(r.inventory, r.metrics)
  }
}
