/** Exactly which validated reports are committed (internal/report/validate.go, internal/store/ingest.go). */
module Acceptance {
  import opened Text
  import opened Clock
  import opened Reports
  import opened Sorting
  import opened Inventories
  import opened InventoryTables
  import opened NetworkTables
  import opened NetworkFacts
  import opened InventoryDatabase
  import opened Samples
  import opened Snapshots
  import opened Rollups
  import opened Partitions
  import opened Database
  import opened Ingestion

  /** `Validate` accepts the report. */
  ghost predicate Validated(r: Report, digest: Digest, now: Instant) {
    WellFormedReport(r, now) && r.inventoryFingerprint == Fingerprint(digest, r.inventory)
  }

  /** The fingerprint normalises the report's own lists in place, so this is what `Ingest` receives. */
  function AsReceived(r: Report): Report {
    r.(inventory := Normalize(r.inventory))
  }

  // ---- normalising changes no key ----

  lemma OnAttrsKeys<T, U>(f: T -> U, items: seq<Item<T>>)
    ensures KeysOf(OnAttrs(f, items)) == KeysOf(items)
    ensures DistinctKeys(items) ==> DistinctKeys(OnAttrs(f, items))
  {
    LastWinsOnAttrs(f, items);
    assert KeysOf(OnAttrs(f, items)) == LastWins(OnAttrs(f, items)).Keys == LastWins(items).Keys;
  }

  lemma SortedKeys<T>(items: seq<Item<T>>)
    requires DistinctKeys(items)
    ensures DistinctKeys(SortBy(KeyOf, items)) && KeysOf(SortBy(KeyOf, items)) == KeysOf(items)
  {
    SortedListSaysTheSame(items);
    assert LastWins(SortBy(KeyOf, items)).Keys == LastWins(items).Keys;
  }

  lemma NormalizeKeepsKeys(inv: Inventory)
    requires KeysDistinct(inv)
    ensures KeysDistinct(Normalize(inv))
    ensures KeysOf(Normalize(inv).filesystems) == KeysOf(inv.filesystems)
    ensures KeysOf(Normalize(inv).networkInterfaces) == KeysOf(inv.networkInterfaces)
    ensures KeysOf(Normalize(inv).blockDevices) == KeysOf(inv.blockDevices)
    ensures KeysOf(Normalize(inv).gpus) == KeysOf(inv.gpus)
    ensures LastWins(Normalize(inv).gpus) == LastWins(inv.gpus)
  {
    hide KeysOf, DistinctKeys, OnAttrs, SortBy;
    SortedKeys(inv.cpuPackages);
    SortedKeys(inv.memoryModules);
    SortedKeys(inv.blockDevices);
    SortedKeys(inv.filesystems);
    SortedKeys(inv.networkInterfaces);
    SortedKeys(inv.gpus);
    SortedListSaysTheSame(inv.gpus);
    OnAttrsKeys(NormalFilesystem, SortBy(KeyOf, inv.filesystems));
    OnAttrsKeys(NormalInterface, SortBy(KeyOf, inv.networkInterfaces));
  }

  lemma ValidatedIsSealed(r: Report, digest: Digest, now: Instant)
    requires Validated(r, digest, now)
    ensures Sealed(AsReceived(r), digest)
  {
    ValidKeysDistinct(r.inventory);
    NormalizeKeepsKeys(r.inventory);
  }

  // ---- every metric resolves ----

  lemma ProjectedKeys<T>(t: Table<NodeId, T>, node: NodeId, items: seq<Item<T>>)
    requires Projects(t, node, items)
    ensures Active(t, node).Keys == KeysOf(items)
    ensures forall k :: k in Active(t, node) ==> Active(t, node)[k].attrs == LastWins(items)[k]
  {
    assert Attrs(Active(t, node)).Keys == Active(t, node).Keys;
    forall k | k in Active(t, node) ensures Active(t, node)[k].attrs == LastWins(items)[k] {
      assert Attrs(Active(t, node))[k] == Active(t, node)[k].attrs;
    }
  }

  /** The ids a transaction reads after its sync stand for exactly the keys of the report's own inventory. */
  ghost predicate IdsMatch(ids: ActiveSets, inv: Inventory) {
    && ids.filesystems.Keys == KeysOf(inv.filesystems) && Injective(ids.filesystems)
    && ids.nics.Keys == KeysOf(inv.networkInterfaces) && Injective(ids.nics)
    && ids.blockDevices.Keys == KeysOf(inv.blockDevices) && Injective(ids.blockDevices)
    && ids.gpus.Keys == KeysOf(inv.gpus) && Injective(ids.gpus)
    && forall k :: k in ids.gpus ==> ids.gpus[k].attrs == LastWins(inv.gpus)[k]
  }

  ghost predicate Injective<T>(ids: map<string, Entry<T>>) {
    forall j, k :: j in ids && k in ids && ids[j].id == ids[k].id ==> j == k
  }

  lemma ProjectedIdsMatch(db: InventoryDb, node: NodeId, inv: Inventory)
    requires WfInventory(db) && KeysDistinct(inv) && ProjectsInventory(db, node, Normalize(inv))
    ensures IdsMatch(ActiveSetsOf(db, node), inv)
  {
    hide Active, KeysOf, Normalize, LastWins, NoOrphans, DistinctKeys, NicItems;
    NormalizeKeepsKeys(inv);
    var norm := Normalize(inv);
    ProjectedKeys(db.filesystems, node, norm.filesystems);
    ProjectedKeys(db.net.nics, node, NicItems(norm.networkInterfaces));
    NicItemsKeys(norm.networkInterfaces);
    ProjectedKeys(db.blockDevices, node, norm.blockDevices);
    ProjectedKeys(db.gpus, node, norm.gpus);
    ActiveOwned(db.filesystems, node);
    ActiveOwned(db.net.nics, node);
    ActiveOwned(db.blockDevices, node);
    ActiveOwned(db.gpus, node);
  }

  lemma ReferencesResolve<M, T, R>(metrics: seq<Item<M>>, resources: seq<Item<R>>, ids: map<string, Entry<T>>)
    requires References(metrics, resources) && ids.Keys == KeysOf(resources)
    ensures forall i :: 0 <= i < |metrics| ==> metrics[i].key in ids
  {}

  /** The device row's memory total is the one the report was validated against, so its CHECK holds. */
  lemma GpuRowsChecked(r: Report, ids: ActiveSets)
    requires ValidInventory(r.inventory) && ValidMetrics(r.inventory, r.metrics) && IdsMatch(ids, r.inventory)
    ensures forall i :: 0 <= i < |r.metrics.gpus| ==>
              r.metrics.gpus[i].key in ids.gpus && GpuChecked(GpuRow(r.metrics.gpus[i].attrs, ids.gpus[r.metrics.gpus[i].key].attrs))
  {
    var inv, m := r.inventory, r.metrics;
    UsableKeysAreDistinct(inv.gpus);
    assert References(m.gpus, inv.gpus);
    forall i | 0 <= i < |m.gpus|
      ensures m.gpus[i].key in ids.gpus && GpuChecked(GpuRow(m.gpus[i].attrs, ids.gpus[m.gpus[i].key].attrs))
    {
      var k := m.gpus[i].key;
      var g := Item(k, LastWins(inv.gpus)[k]);
      MemberIffMapped(inv.gpus, g);
      assert m.gpus[i] in m.gpus && g in inv.gpus;
      assert ValidGpu(g.attrs) && ValidGpuMetrics(m.gpus[i].attrs, g.attrs.memoryTotalBytes);
    }
  }

  lemma DetailsNeverFail(r: Report, ids: ActiveSets, partitions: set<Partition>)
    requires ValidInventory(r.inventory) && ValidMetrics(r.inventory, r.metrics) && IdsMatch(ids, r.inventory)
    requires DaysWhole(partitions) && DayReady(partitions, NodeSamples, BucketOf(r))
    ensures FilesystemFailure(ids, partitions, r).None? && NetworkFailure(ids, partitions, r).None? && GpuFailure(ids, partitions, r).None?
  {
    var minute := BucketOf(r);
    assert DayReady(partitions, FilesystemSamples, minute) && DayReady(partitions, NetworkSamples, minute) && DayReady(partitions, GpuSamples, minute) by {
      hide DayOfMinute;
      var p := Partition(NodeSamples, DayOfMinute(minute));
      assert RawPartitions(p.index) <= partitions;
    }
    hide DayReady, FirstFailure, RowsOf, DaysWhole;
    GpuRowsChecked(r, ids);
    FilesystemsNeverFail(r, ids, partitions);
    assert IdsMatch(ids, r.inventory);
    UsableKeysAreDistinct(r.metrics.network);
    ReferencesResolve(r.metrics.network, r.inventory.networkInterfaces, ids.nics);
    ResolvableNeverFails(ids.nics, r.metrics.network, NetworkRow, NetworkChecked, DayReady(partitions, NetworkSamples, minute));
    UsableKeysAreDistinct(r.metrics.gpus);
    ResolvableNeverFails(ids.gpus, r.metrics.gpus, GpuRow, GpuChecked, DayReady(partitions, GpuSamples, minute));
  }

  lemma FilesystemsNeverFail(r: Report, ids: ActiveSets, partitions: set<Partition>)
    requires ValidMetrics(r.inventory, r.metrics) && IdsMatch(ids, r.inventory)
    requires DayReady(partitions, FilesystemSamples, BucketOf(r))
    ensures FilesystemFailure(ids, partitions, r).None?
  {
    hide FirstFailure, RowsOf, DayReady;
    var metrics := r.metrics.filesystems;
    UsableKeysAreDistinct(metrics);
    ReferencesResolve(metrics, r.inventory.filesystems, ids.filesystems);
    forall i | 0 <= i < |metrics| ensures FilesystemChecked(FilesystemRow(metrics[i].attrs, ids.filesystems[metrics[i].key].attrs)) {
      assert metrics[i] in metrics;
    }
    ResolvableNeverFails(ids.filesystems, metrics, FilesystemRow, FilesystemChecked, DayReady(partitions, FilesystemSamples, BucketOf(r)));
  }

  lemma HealthNeverFails(r: Report, ids: ActiveSets, health: HealthDb, node: NodeId)
    requires ValidMetrics(r.inventory, r.metrics) && IdsMatch(ids, r.inventory)
    ensures HealthFailure(ids, health, node, r).None?
  {
    hide FirstUnstorable, CanBeReplaced;
    UsableKeysAreDistinct(r.metrics.temperatures);
    ResolvableIsStorable(SensorKey, r.metrics.temperatures);
    UsableKeysAreDistinct(r.metrics.storageHealth);
    ReferencesResolve(r.metrics.storageHealth, r.inventory.blockDevices, ids.blockDevices);
    ResolvableIsStorable(DeviceId(ids), r.metrics.storageHealth);
  }

  /** The one reason for which a validated report is rolled back, if any. */
  ghost function Verdict(db: Db, node: NodeId, r: Report, receivedAt: Instant): Option<Failure> {
    if node !in db.nodes then Some(UnknownNode)
    else if !Admits(db.nodes[node], receivedAt) then Some(CheckViolation)
    else if db.nodes[node].fingerprint != r.inventoryFingerprint && !SeenByThen(db.inventory, node, receivedAt) then Some(CheckViolation)
    else if !DayReady(db.history.partitions, NodeSamples, BucketOf(r)) then Some(MissingPartition)
    else None
  }

  lemma SyncedCheckedIff(db: Db, node: NodeId, r: Report, receivedAt: Instant)
    requires WfInventory(db.inventory) && InventoryChecked(db.inventory) && node in db.nodes && KeysDistinct(r.inventory)
    ensures InventoryChecked(SyncedInventory(db, node, r, receivedAt))
            <==> db.nodes[node].fingerprint == r.inventoryFingerprint || SeenByThen(db.inventory, node, receivedAt)
  {
    hide WfInventory, InventoryChecked, SeenByThen, SyncInventory, KeysDistinct;
    SyncInventoryCheckedIff(db.inventory, node, r.inventory, receivedAt);
  }

  lemma RowsFailOnlyForPartitions(db: Db, digest: Digest, node: NodeId, r: Report, now: Instant, receivedAt: Instant, synced: InventoryDb)
    requires Validated(r, digest, now) && DaysWhole(db.history.partitions)
    requires WfInventory(synced) && ProjectsInventory(synced, node, Normalize(r.inventory))
    ensures RowsFailure(ActiveSetsOf(synced, node), db, node, AsReceived(r), receivedAt)
            == if DayReady(db.history.partitions, NodeSamples, BucketOf(r)) then None else Some(MissingPartition)
  {
    hide WfInventory, ActiveSetsOf, IdsMatch, ValidInventory, ValidMetrics, HealthFailure, DayReady, DaysWhole, Normalize, ProjectsInventory;
    assert ValidInventory(r.inventory) && ValidMetrics(r.inventory, r.metrics);
    ValidKeysDistinct(r.inventory);
    ProjectedIdsMatch(synced, node, r.inventory);
    var ids, q := ActiveSetsOf(synced, node), AsReceived(r);
    assert q.metrics == r.metrics && BucketOf(q) == BucketOf(r);
    MainPasses(r, receivedAt);
    SameFailures(ids, db, node, r, receivedAt);
    if DayReady(db.history.partitions, NodeSamples, BucketOf(r)) {
      DetailsNeverFail(r, ids, db.history.partitions);
      HealthNeverFails(r, ids, db.health, node);
    }
  }

  lemma MainPasses(r: Report, receivedAt: Instant)
    requires exists now :: WellFormedReport(r, now)
    ensures MainChecked(MainOf(r, receivedAt))
  {
    hide ValidInventory;
  }

  lemma SameFailures(ids: ActiveSets, db: Db, node: NodeId, r: Report, receivedAt: Instant)
    ensures RowsFailure(ids, db, node, AsReceived(r), receivedAt) == RowsFailure(ids, db, node, r, receivedAt)
  {
    hide FirstFailure, FirstUnstorable, Normalize, CanBeReplaced, DayReady, MainChecked;
  }

  lemma OutcomeCases(db: Db, node: NodeId, r: Report, receivedAt: Instant)
    requires WfInventory(db.inventory)
    ensures var outcome := Ingest(db, node, r, receivedAt);
      if node !in db.nodes then outcome == RolledBack(UnknownNode)
      else if !Admits(db.nodes[node], receivedAt) then outcome == RolledBack(CheckViolation)
      else
        var synced := SyncedInventory(db, node, r, receivedAt);
        if !InventoryChecked(synced) then outcome == RolledBack(CheckViolation)
        else
          && WfInventory(synced)
          && match RowsFailure(ActiveSetsOf(synced, node), db, node, r, receivedAt)
             case Some(f) => outcome == RolledBack(f)
             case None => outcome.Committed?
  {
    hide WfInventory, InventoryChecked, WithSamples, WithCurrent, WithHealth, ContributionOf, ActiveSetsOf, SyncedInventory, Seen,
      RowsFailure, HealthFailure, Resolved, ExtendsInventory;
    if node in db.nodes {
      SyncedWf(db, node, r, receivedAt);
    }
  }

  /**
   * A validated report is committed unless its node is unknown, its receive time precedes a row it must stamp, or
   * its day has no partition. It never names an inactive resource and never stores a key twice.
   */
  lemma ValidatedOutcome(db: Db, digest: Digest, node: NodeId, r: Report, now: Instant, receivedAt: Instant)
    requires WfDb(db, digest) && GoodDigest(digest) && Validated(r, digest, now)
    ensures var outcome := Ingest(db, node, AsReceived(r), receivedAt);
      match Verdict(db, node, r, receivedAt)
      case Some(reason) => outcome == RolledBack(reason)
      case None => outcome.Committed?
  {
    hide Ingest, WfInventory, InventoryChecked, FingerprintsTrue, WfHistory, SamplesChecked, ResourcesExist, CurrentAgrees,
      RowsFailure, ActiveSetsOf, ProjectsInventory, SyncedInventory, Validated, DaysWhole, DayReady, SeenByThen, Normalize,
      ExtendsInventory, Seen, KeysDistinct;
    var q := AsReceived(r);
    assert q.inventoryFingerprint == r.inventoryFingerprint && q.inventory == Normalize(r.inventory);
    assert BucketOf(q) == BucketOf(r);
    ValidatedIsSealed(r, digest, now);
    OutcomeCases(db, node, q, receivedAt);
    if node in db.nodes {
      SyncedShowsReport(db, digest, node, q, receivedAt);
      SyncedCheckedIff(db, node, q, receivedAt);
      RowsFailOnlyForPartitions(db, digest, node, r, now, receivedAt, SyncedInventory(db, node, q, receivedAt));
    }
  }
}
