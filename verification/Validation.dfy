/** `Validate` as it runs: loops over the lists, in the order of the source (internal/report/validate.go:16-333). */
module Validation {
  import opened Text
  import opened Clock
  import opened Reports
  import opened Inventories
  import opened Ingestion
  import opened Acceptance

  /** `validTemperature`; readings are finite here. */
  method CheckTemperature(value: real) returns (ok: bool)
    ensures ok <==> ValidTemperature(value)
  {
    ok := value >= -273.15 && value <= 1000.0;
  }

  method CheckOptionalTemperature(value: Option<real>) returns (ok: bool)
    ensures ok <==> OptionalTemperature(value)
  {
    ok := true;
    if value.Some? {
      ok := CheckTemperature(value.value);
    }
  }

  /** `validateUnsignedBigints`: the greatest bigint is 2^63 - 1. */
  method CheckBigints(values: seq<nat>) returns (ok: bool)
    ensures ok <==> forall i :: 0 <= i < |values| ==> values[i] <= MAX_BIGINT
  {
    for i := 0 to |values|
      invariant forall j :: 0 <= j < i ==> values[j] <= MAX_BIGINT
    {
      if values[i] > 9_223_372_036_854_775_807 {
        return false;
      }
    }
    return true;
  }

  /** `validateOptionalUnsignedBigints`. */
  method CheckOptionalBigints(values: seq<Option<nat>>) returns (ok: bool)
    ensures ok <==> forall i :: 0 <= i < |values| ==> OptionalBigint(values[i])
  {
    for i := 0 to |values|
      invariant forall j :: 0 <= j < i ==> OptionalBigint(values[j])
    {
      if values[i].Some? {
        var fits := CheckBigints([values[i].value]);
        assert [values[i].value][0] == values[i].value;
        if !fits {
          return false;
        }
      }
    }
    return true;
  }

  method ValidateCpuPackages(items: seq<Item<CpuPackage>>) returns (ok: bool)
    ensures ok <==> forall x :: x in items ==> ValidCpuPackage(x.attrs)
  {
    for i := 0 to |items|
      invariant forall j :: 0 <= j < i ==> ValidCpuPackage(items[j].attrs)
    {
      var item := items[i].attrs;
      assert items[i] in items;
      var classifiedCores := item.performanceCores + item.efficiencyCores;
      if TrimSpace(item.modelName) == "" || item.physicalCores < 1 || item.logicalThreads < item.physicalCores || item.packageIndex < 0
         || item.performanceCores < 0 || item.efficiencyCores < 0 || item.maxFrequencyMHz.mantissa < 0
         || (classifiedCores != 0 && classifiedCores != item.physicalCores) {
        return false;
      }
    }
    return true;
  }

  method ValidateMemoryModules(items: seq<Item<MemoryModule>>) returns (ok: bool)
    ensures ok <==> forall x :: x in items ==> ValidMemoryModule(x.attrs)
  {
    for i := 0 to |items|
      invariant forall j :: 0 <= j < i ==> ValidMemoryModule(items[j].attrs)
    {
      var item := items[i].attrs;
      assert items[i] in items;
      if item.sizeBytes == 0 || item.sizeBytes > 9_223_372_036_854_775_807 || item.speedMTs < 0 {
        return false;
      }
    }
    return true;
  }

  method ValidateBlockDevices(items: seq<Item<BlockDevice>>) returns (ok: bool)
    ensures ok <==> forall x :: x in items ==> ValidBlockDevice(x.attrs)
  {
    for i := 0 to |items|
      invariant forall j :: 0 <= j < i ==> ValidBlockDevice(items[j].attrs)
    {
      var item := items[i].attrs;
      assert items[i] in items;
      if TrimSpace(item.deviceName) == "" || item.sizeBytes > 9_223_372_036_854_775_807 {
        return false;
      }
      if item.deviceKind !in {"disk", "raid", "multipath", "virtual"} {
        return false;
      }
    }
    return true;
  }

  method ValidateFilesystems(items: seq<Item<Filesystem>>) returns (ok: bool)
    ensures ok <==> forall x :: x in items ==> ValidFilesystem(x.attrs)
  {
    for i := 0 to |items|
      invariant forall j :: 0 <= j < i ==> ValidFilesystem(items[j].attrs)
    {
      var item := items[i].attrs;
      assert items[i] in items;
      if TrimSpace(item.deviceName) == "" || TrimSpace(item.filesystemType) == "" || TrimSpace(item.mountPoint) == "" {
        return false;
      }
    }
    return true;
  }

  method ValidateGpus(items: seq<Item<Gpu>>) returns (ok: bool)
    ensures ok <==> forall x :: x in items ==> ValidGpu(x.attrs)
  {
    for i := 0 to |items|
      invariant forall j :: 0 <= j < i ==> ValidGpu(items[j].attrs)
    {
      var item := items[i].attrs;
      assert items[i] in items;
      if item.index < 0 || TrimSpace(item.uuid) == "" || TrimSpace(item.modelName) == ""
         || item.memoryTotalBytes == 0 || item.memoryTotalBytes > 9_223_372_036_854_775_807 {
        return false;
      }
    }
    return true;
  }

  /** The key set the metric loops look references up in. */
  method CollectKeys<T>(items: seq<Item<T>>) returns (keys: set<string>)
    ensures keys == KeysOf(items)
  {
    keys := {};
    for i := 0 to |items|
      invariant keys == set j | 0 <= j < i :: items[j].key
    {
      keys := keys + {items[i].key};
    }
  }

  method AllReferenced<M, T>(metrics: seq<Item<M>>, resources: seq<Item<T>>) returns (ok: bool)
    ensures ok <==> References(metrics, resources)
  {
    var keys := CollectKeys(resources);
    for i := 0 to |metrics|
      invariant forall j :: 0 <= j < i ==> metrics[j].key in keys
    {
      if metrics[i].key !in keys {
        return false;
      }
    }
    return true;
  }

  method ValidateInterface(item: NetworkInterface) returns (ok: bool)
    ensures ok <==> ValidInterface(item)
  {
    if TrimSpace(item.name) == "" || item.mtu < 0 || item.linkSpeedMbps < 0 {
      return false;
    }
    var seen: set<string> := {};
    for i := 0 to |item.addresses|
      invariant seen == set j | 0 <= j < i :: item.addresses[j].text
      invariant forall j, k :: 0 <= j < k < i ==> item.addresses[j].text != item.addresses[k].text
      invariant forall j :: 0 <= j < i ==> item.addresses[j].scope in {"host", "link", "private", "global", "multicast", "unknown"}
    {
      var a := item.addresses[i];
      if a.text in seen {
        return false;
      }
      seen := seen + {a.text};
      if a.scope !in {"host", "link", "private", "global", "multicast", "unknown"} {
        assert a in item.addresses;
        return false;
      }
    }
    return true;
  }

  method ValidateInterfaces(items: seq<Item<NetworkInterface>>) returns (ok: bool)
    ensures ok <==> forall x :: x in items ==> ValidInterface(x.attrs)
  {
    hide ValidInterface;
    for i := 0 to |items|
      invariant forall j :: 0 <= j < i ==> ValidInterface(items[j].attrs)
    {
      var valid := ValidateInterface(items[i].attrs);
      if !valid {
        assert items[i] in items;
        return false;
      }
    }
    return true;
  }

  method ValidateInventory(inv: Inventory) returns (ok: bool)
    ensures ok <==> ValidInventory(inv)
  {
    hide UsableKeys, ValidCpuPackage, ValidMemoryModule, ValidBlockDevice, ValidFilesystem, ValidInterface, ValidGpu;
    if |inv.cpuPackages| > 1024 || |inv.memoryModules| > 4096 || |inv.blockDevices| > 4096
       || |inv.filesystems| > 4096 || |inv.networkInterfaces| > 4096 || |inv.gpus| > 1024 {
      return false;
    }
    var keys := UniqueKeys(inv.cpuPackages);
    if !keys { return false; }
    var items := ValidateCpuPackages(inv.cpuPackages);
    if !items { return false; }
    keys := UniqueKeys(inv.memoryModules);
    if !keys { return false; }
    items := ValidateMemoryModules(inv.memoryModules);
    if !items { return false; }
    keys := UniqueKeys(inv.blockDevices);
    if !keys { return false; }
    items := ValidateBlockDevices(inv.blockDevices);
    if !items { return false; }
    keys := UniqueKeys(inv.filesystems);
    if !keys { return false; }
    items := ValidateFilesystems(inv.filesystems);
    if !items { return false; }
    keys := UniqueKeys(inv.networkInterfaces);
    if !keys { return false; }
    items := ValidateInterfaces(inv.networkInterfaces);
    if !items { return false; }
    keys := UniqueKeys(inv.gpus);
    if !keys { return false; }
    ok := ValidateGpus(inv.gpus);
  }

  method ValidateGpuMetric(item: GpuMetrics, memoryTotal: nat) returns (ok: bool)
    ensures ok <==> ValidGpuMetrics(item, memoryTotal)
  {
    if item.utilizationPercent < 0.0 || item.utilizationPercent > 100.0 {
      return false;
    }
    var temperature := CheckOptionalTemperature(item.temperatureCelsius);
    if !temperature {
      return false;
    }
    var fits := CheckBigints([item.memoryUsedBytes]);
    assert [item.memoryUsedBytes][0] == item.memoryUsedBytes;
    if !fits {
      return false;
    }
    ok := item.memoryUsedBytes <= memoryTotal;
  }

  /** Each GPU metric against the memory total recorded for its key. */
  method ValidateGpuMetrics(gpus: seq<Item<Gpu>>, metrics: seq<Item<GpuMetrics>>) returns (ok: bool)
    requires DistinctKeys(gpus)
    ensures ok <==> References(metrics, gpus)
                    && forall x, g :: x in metrics && g in gpus && x.key == g.key ==> ValidGpuMetrics(x.attrs, g.attrs.memoryTotalBytes)
  {
    hide ValidGpuMetrics;
    var memory: map<string, nat> := map[];
    for i := 0 to |gpus|
      invariant memory.Keys == set j | 0 <= j < i :: gpus[j].key
      invariant forall j :: 0 <= j < i ==> memory[gpus[j].key] == gpus[j].attrs.memoryTotalBytes
    {
      memory := memory[gpus[i].key := gpus[i].attrs.memoryTotalBytes];
    }
    for i := 0 to |metrics|
      invariant forall j :: 0 <= j < i ==> metrics[j].key in memory && ValidGpuMetrics(metrics[j].attrs, memory[metrics[j].key])
    {
      var m := metrics[i];
      assert m in metrics;
      if m.key !in memory {
        return false;
      }
      var valid := ValidateGpuMetric(m.attrs, memory[m.key]);
      if !valid {
        ghost var j :| 0 <= j < |gpus| && gpus[j].key == m.key;
        assert gpus[j] in gpus;
        return false;
      }
    }
    return true;
  }

  method ValidateMemory(m: MemoryMetrics) returns (ok: bool)
    ensures ok <==> ValidMemory(m)
  {
    var values := [m.totalBytes, m.usedBytes, m.availableBytes, m.cachedBytes, m.buffersBytes, m.swapTotalBytes, m.swapUsedBytes, m.uptimeSeconds];
    var fits := CheckBigints(values);
    assert fits ==> values[0] <= MAX_BIGINT && values[5] <= MAX_BIGINT && values[7] <= MAX_BIGINT;
    if !fits {
      return false;
    }
    ok := !(m.usedBytes > m.totalBytes || m.availableBytes > m.totalBytes || m.cachedBytes > m.totalBytes || m.buffersBytes > m.totalBytes
            || m.swapUsedBytes > m.swapTotalBytes);
  }

  method ValidateDisk(d: DiskMetrics) returns (ok: bool)
    ensures ok <==> ValidDisk(d)
  {
    var values := [d.readBytesTotal, d.writeBytesTotal, d.readBytesDelta, d.writeBytesDelta, d.readOpsDelta, d.writeOpsDelta];
    ok := CheckBigints(values);
    assert ok ==> values[0] <= MAX_BIGINT && values[1] <= MAX_BIGINT && values[2] <= MAX_BIGINT && values[3] <= MAX_BIGINT
                  && values[4] <= MAX_BIGINT && values[5] <= MAX_BIGINT;
  }

  method ValidateFilesystemMetrics(items: seq<Item<FilesystemMetrics>>) returns (ok: bool)
    ensures ok <==> forall x :: x in items ==> ValidFilesystemMetrics(x.attrs)
  {
    for i := 0 to |items|
      invariant forall j :: 0 <= j < i ==> ValidFilesystemMetrics(items[j].attrs)
    {
      var item := items[i].attrs;
      assert items[i] in items;
      var values := [item.totalBytes, item.usedBytes, item.availableBytes, item.totalInodes, item.usedInodes];
      var fits := CheckBigints(values);
      assert fits ==> values[0] <= MAX_BIGINT && values[3] <= MAX_BIGINT && values[4] <= MAX_BIGINT;
      if !fits {
        return false;
      }
      if item.usedBytes > item.totalBytes || item.availableBytes > item.totalBytes || (item.usedInodes > item.totalInodes && item.totalInodes != 0) {
        return false;
      }
    }
    return true;
  }

  method ValidateNetworkMetrics(items: seq<Item<NetworkMetrics>>) returns (ok: bool)
    ensures ok <==> forall x :: x in items ==> ValidNetworkMetrics(x.attrs)
  {
    for i := 0 to |items|
      invariant forall j :: 0 <= j < i ==> ValidNetworkMetrics(items[j].attrs)
    {
      var item := items[i].attrs;
      assert items[i] in items;
      var values := [item.rxBytesTotal, item.txBytesTotal, item.rxBytesDelta, item.txBytesDelta, item.rxPacketsDelta, item.txPacketsDelta,
                     item.rxErrorsDelta, item.txErrorsDelta, item.rxDroppedDelta, item.txDroppedDelta];
      var fits := CheckBigints(values);
      assert fits ==> values[0] <= MAX_BIGINT && values[1] <= MAX_BIGINT && values[2] <= MAX_BIGINT && values[3] <= MAX_BIGINT
                      && values[4] <= MAX_BIGINT && values[5] <= MAX_BIGINT && values[6] <= MAX_BIGINT && values[7] <= MAX_BIGINT
                      && values[8] <= MAX_BIGINT && values[9] <= MAX_BIGINT;
      if !fits {
        return false;
      }
    }
    return true;
  }

  method ValidateTemperatures(items: seq<Item<Temperature>>) returns (ok: bool)
    ensures ok <==> forall x :: x in items ==> ValidTemperatureMetric(x.attrs)
  {
    for i := 0 to |items|
      invariant forall j :: 0 <= j < i ==> ValidTemperatureMetric(items[j].attrs)
    {
      var item := items[i].attrs;
      assert items[i] in items;
      if item.component !in {"cpu", "motherboard", "gpu", "storage", "other"} {
        return false;
      }
      var celsius := CheckTemperature(item.celsius);
      var high := CheckOptionalTemperature(item.highCelsius);
      var critical := CheckOptionalTemperature(item.criticalCelsius);
      if TrimSpace(item.sensorLabel) == "" || !celsius || !high || !critical {
        return false;
      }
    }
    return true;
  }

  method ValidateReasons(reasons: seq<string>) returns (ok: bool)
    ensures ok <==> ValidReasons(reasons)
  {
    if |reasons| > 32 {
      return false;
    }
    var seen: set<string> := {};
    for i := 0 to |reasons|
      invariant seen == set j | 0 <= j < i :: reasons[j]
      invariant forall j :: 0 <= j < i ==> KnownReason(reasons[j])
      invariant forall j, k :: 0 <= j < k < i ==> reasons[j] != reasons[k]
    {
      var known := CheckReason(reasons[i]);
      hide KnownReason;
      if !known || reasons[i] in seen {
        return false;
      }
      seen := seen + {reasons[i]};
    }
    return true;
  }

  method CheckReason(reason: string) returns (known: bool)
    ensures known <==> KnownReason(reason)
  {
    match reason {
      case "smart_failed" | "prefail_attribute" | "nvme_critical_warning" | "pending_sectors" => known := true;
      case "uncorrectable_sectors" | "reallocated_sectors" | "device_errors" | "age_attribute" => known := true;
      case "device_error_log" | "self_test_errors" | "wear_exhausted" | "wear_high" => known := true;
      case _ => known := false;
    }
  }

  method ValidateHealth(m: StorageHealth) returns (ok: bool)
    ensures ok <==> ValidStorageHealth(m)
  {
    if m.smartStatus !in {"passed", "failed", "unknown"} {
      return false;
    }
    if m.riskLevel !in {"healthy", "warning", "critical", "unknown"} {
      return false;
    }
    hide KnownReason;
    var temperature := CheckOptionalTemperature(m.temperatureCelsius);
    if !temperature || (m.percentageUsed.Some? && (m.percentageUsed.value < 0.0 || m.percentageUsed.value > 255.0)) {
      return false;
    }
    var reasons := ValidateReasons(m.riskReasons);
    if !reasons {
      return false;
    }
    var counters := [m.powerOnHours, m.errorCount, m.readErrorRateNormalized, m.readErrorRateRaw, m.reallocatedSectors, m.pendingSectors,
                     m.uncorrectableSectors];
    ok := CheckOptionalBigints(counters);
    assert ok ==> OptionalBigint(counters[0]) && OptionalBigint(counters[1]) && OptionalBigint(counters[2]) && OptionalBigint(counters[3])
                  && OptionalBigint(counters[4]) && OptionalBigint(counters[5]) && OptionalBigint(counters[6]);
  }

  method ValidateStorageHealth(items: seq<Item<StorageHealth>>) returns (ok: bool)
    ensures ok <==> forall x :: x in items ==> ValidStorageHealth(x.attrs)
  {
    hide ValidStorageHealth;
    for i := 0 to |items|
      invariant forall j :: 0 <= j < i ==> ValidStorageHealth(items[j].attrs)
    {
      assert items[i] in items;
      var valid := ValidateHealth(items[i].attrs);
      if !valid {
        return false;
      }
    }
    return true;
  }

  method ValidateMetrics(inv: Inventory, m: Metrics) returns (ok: bool)
    requires DistinctKeys(inv.gpus)
    ensures ok <==> ValidMetrics(inv, m)
  {
    hide UsableKeys, References, ValidMemory, ValidDisk, ValidFilesystemMetrics, ValidNetworkMetrics, ValidGpuMetrics,
      ValidTemperatureMetric, ValidStorageHealth, DistinctKeys;
    var memory := ValidateMemory(m.memory);
    if !memory { return false; }
    var disk := ValidateDisk(m.disk);
    if !disk { return false; }
    var keys := UniqueKeys(m.filesystems);
    if !keys { return false; }
    var known := AllReferenced(m.filesystems, inv.filesystems);
    var items := ValidateFilesystemMetrics(m.filesystems);
    if !known || !items { return false; }
    keys := UniqueKeys(m.network);
    if !keys { return false; }
    known := AllReferenced(m.network, inv.networkInterfaces);
    items := ValidateNetworkMetrics(m.network);
    if !known || !items { return false; }
    keys := UniqueKeys(m.gpus);
    if !keys { return false; }
    items := ValidateGpuMetrics(inv.gpus, m.gpus);
    if !items { return false; }
    if |m.temperatures| > 4096 || |m.storageHealth| > 4096 {
      return false;
    }
    keys := UniqueKeys(m.temperatures);
    if !keys { return false; }
    items := ValidateTemperatures(m.temperatures);
    if !items { return false; }
    keys := UniqueKeys(m.storageHealth);
    if !keys { return false; }
    known := AllReferenced(m.storageHealth, inv.blockDevices);
    items := ValidateStorageHealth(m.storageHealth);
    ok := known && items;
  }

  /** Decides whether a report is accepted, and leaves its inventory in normal form. */
  method Validate(digest: Digest, r: Report, now: Instant) returns (ok: bool, received: Report)
    ensures ok <==> Validated(r, digest, now)
    ensures ok ==> received == AsReceived(r)
  {
    hide ValidInventory, ValidMetrics, Normalize;
    received := r;
    if r.version != REPORT_VERSION {
      return false, r;
    }
    if TrimSpace(r.agent.hostname) == "" || TrimSpace(r.agent.osName) == "" || TrimSpace(r.agent.architecture) == ""
       || TrimSpace(r.agent.agentVersion) == "" {
      return false, r;
    }
    if r.agent.machineType !in {"", "physical", "virtual"} {
      return false, r;
    }
    if r.collectedAt > now + Minutes(5) || r.collectedAt < now - Hours(24) {
      return false, r;
    }
    if r.intervalSeconds < 1 || r.intervalSeconds > 3600 || r.metrics.cpu.usagePercent < 0.0 || r.metrics.cpu.usagePercent > 100.0 {
      return false, r;
    }
    if r.metrics.cpu.load1 < 0.0 || r.metrics.cpu.load5 < 0.0 || r.metrics.cpu.load15 < 0.0 {
      return false, r;
    }
    var inventory := ValidateInventory(r.inventory);
    if !inventory { return false, r; }
    ValidKeysDistinct(r.inventory);
    var metrics := ValidateMetrics(r.inventory, r.metrics);
    if !metrics { return false, r; }
    received := r.(inventory := Normalize(r.inventory));
    ok := r.inventoryFingerprint == digest(received.inventory);
  }
}
