/** What a committed report says can be read back from the tables, column by column. */
module ReadBack {
  import opened Text
  import opened Clock
  import opened Reports
  import opened Inventories
  import opened InventoryTables
  import opened NetworkTables
  import opened InventoryDatabase
  import opened Samples
  import opened Snapshots
  import opened Rollups
  import opened Partitions
  import opened Database
  import opened Ingestion
  import opened Acceptance
  import opened Runs
  import opened RunSamples
  import opened RunCurrent

  /** The row is the active row of the node under the key. */
  ghost predicate ActiveUnder<T>(t: Table<NodeId, T>, node: NodeId, key: string, id: Id) {
    id in t.rows && IsActiveKey(t.rows[id], node, key)
  }

  /** Each metric of a list is stored under the active row of its key, made from the metric and that row's columns. */
  lemma DetailReadsBack<T, M, S>(t: Table<NodeId, T>, table: map<DetailKey, S>, minute: Minute, node: NodeId, metrics: seq<Item<M>>,
                                 make: (M, T) -> S, i: nat) returns (id: Id)
    requires Wf(t) && DistinctKeys(metrics) && i < |metrics|
    requires forall j :: 0 <= j < |metrics| ==> metrics[j].key in Active(t, node)
    requires SlotIs(table, minute, node, RowsOf(Active(t, node), metrics, make))
    ensures ActiveUnder(t, node, metrics[i].key, id)
    ensures DetailKey(minute, node, id) in table && table[DetailKey(minute, node, id)] == make(metrics[i].attrs, t.rows[id].attrs)
  {
    hide Active, RowsOf;
    ActiveOwned(t, node);
    ActiveAt(t, node);
    RowsOfAt(Active(t, node), metrics, make, i);
    id := Active(t, node)[metrics[i].key].id;
    assert Backed(t, node, metrics[i].key, Active(t, node)[metrics[i].key]);
  }

  /** What a commit leaves to read back from. */
  lemma CommittedSlots(db: Db, digest: Digest, s: Step)
    requires WfDb(db, digest) && GoodDigest(digest) && WfInventory(db.inventory) && Accepted(db, digest, s)
    ensures s.Post?
    ensures var after := Apply(db, digest, s);
      && WfInventory(after.inventory)
      && IdsMatch(ActiveSetsOf(after.inventory, s.node), s.report.inventory)
      && Resolved(ActiveSetsOf(after.inventory, s.node), s.report)
      && SlotShows(after.history.samples, BucketOf(s.report), s.node,
                   ContributionOf(ActiveSetsOf(after.inventory, s.node), s.report, s.receivedAt))
  {
    hide Apply, Accepted, WfDb, WfInventory, ActiveSetsOf, RowsFailure, HealthFailure, WithSamples, WithCurrent, WithHealth, SlotShows,
      SyncedInventory, InventoryChecked, ExtendsInventory, ProjectsInventory, Normalize, IdsMatch, ValidInventory, SlotSame, RowsOf;
    AcceptedFacts(db, digest, s);
    AcceptedIsValid(db, digest, s);
    var after := Apply(db, digest, s);
    var r := AsReceived(s.report);
    assert r.metrics == s.report.metrics && BucketOf(r) == BucketOf(s.report) && MainOf(r, s.receivedAt) == MainOf(s.report, s.receivedAt);
    ValidKeysDistinct(s.report.inventory);
    ProjectedIdsMatch(after.inventory, s.node, s.report.inventory);
    ReportFillsSlot(db.history.samples, BucketOf(r), s.node, ContributionOf(ActiveSetsOf(after.inventory, s.node), r, s.receivedAt));
  }

  ghost predicate SameMain(s: MainSample, r: Report, receivedAt: Instant) {
    && s.collectedAt == r.collectedAt && s.receivedAt == receivedAt && s.intervalSeconds == r.intervalSeconds
    && s.cpu == r.metrics.cpu && s.memory == r.metrics.memory && s.disk == r.metrics.disk
  }

  /** The main sample of a committed report is the report's own CPU, memory and disk figures. */
  lemma MainReadsBack(db: Db, digest: Digest, s: Step)
    requires WfDb(db, digest) && GoodDigest(digest) && WfInventory(db.inventory) && Accepted(db, digest, s)
    ensures var main := Apply(db, digest, s).history.samples.main;
      s.Post? && MinuteKey(BucketOf(s.report), s.node) in main
      && SameMain(main[MinuteKey(BucketOf(s.report), s.node)], s.report, s.receivedAt)
  {
    hide Apply, Accepted, WfDb, WfInventory, ActiveSetsOf, IdsMatch, RowsOf, SlotIs;
    CommittedSlots(db, digest, s);
  }

  /** A stored count of zero inodes is no count. */
  ghost predicate SameFilesystem(s: FilesystemSample, m: FilesystemMetrics) {
    && s.totalBytes == m.totalBytes && s.usedBytes == m.usedBytes && s.availableBytes == m.availableBytes
    && (m.totalInodes == 0 ==> s.totalInodes.None? && s.usedInodes.None?)
    && (m.totalInodes != 0 ==> s.totalInodes == Some(m.totalInodes) && s.usedInodes == Some(m.usedInodes))
  }

  lemma FilesystemReadsBack(db: Db, digest: Digest, s: Step, i: nat) returns (id: Id)
    requires WfDb(db, digest) && GoodDigest(digest) && WfInventory(db.inventory) && Accepted(db, digest, s)
    requires s.Post? && i < |s.report.metrics.filesystems|
    ensures var after, m, k := Apply(db, digest, s), s.report.metrics.filesystems[i], DetailKey(BucketOf(s.report), s.node, id);
      && ActiveUnder(after.inventory.filesystems, s.node, m.key, id)
      && k in after.history.samples.filesystems && SameFilesystem(after.history.samples.filesystems[k], m.attrs)
  {
    hide Apply, Accepted, WfDb, IdsMatch, RowsOf, SlotIs, Active, Wf, NoOrphans, References;
    CommittedSlots(db, digest, s);
    AcceptedIsValid(db, digest, s);
    UsableKeysAreDistinct(s.report.metrics.filesystems);
    var after := Apply(db, digest, s);
    id := DetailReadsBack(after.inventory.filesystems, after.history.samples.filesystems, BucketOf(s.report), s.node,
                          s.report.metrics.filesystems, FilesystemRow, i);
  }

  lemma NetworkReadsBack(db: Db, digest: Digest, s: Step, i: nat) returns (id: Id)
    requires WfDb(db, digest) && GoodDigest(digest) && WfInventory(db.inventory) && Accepted(db, digest, s)
    requires s.Post? && i < |s.report.metrics.network|
    ensures var after, m, k := Apply(db, digest, s), s.report.metrics.network[i], DetailKey(BucketOf(s.report), s.node, id);
      && ActiveUnder(after.inventory.net.nics, s.node, m.key, id)
      && k in after.history.samples.network && after.history.samples.network[k] == m.attrs
  {
    hide Apply, Accepted, WfDb, IdsMatch, RowsOf, SlotIs, Active, Wf, NoOrphans, References;
    CommittedSlots(db, digest, s);
    AcceptedIsValid(db, digest, s);
    UsableKeysAreDistinct(s.report.metrics.network);
    var after := Apply(db, digest, s);
    id := DetailReadsBack(after.inventory.net.nics, after.history.samples.network, BucketOf(s.report), s.node, s.report.metrics.network,
                          NetworkRow, i);
  }

  /** The stored total is the device row's, and it is the total the report itself states for that GPU. */
  lemma GpuReadsBack(db: Db, digest: Digest, s: Step, i: nat) returns (id: Id)
    requires WfDb(db, digest) && GoodDigest(digest) && WfInventory(db.inventory) && Accepted(db, digest, s)
    requires s.Post? && i < |s.report.metrics.gpus|
    ensures var after, m, k := Apply(db, digest, s), s.report.metrics.gpus[i], DetailKey(BucketOf(s.report), s.node, id);
      && ActiveUnder(after.inventory.gpus, s.node, m.key, id)
      && k in after.history.samples.gpus
      && var sample := after.history.samples.gpus[k];
      && sample.utilizationPercent == m.attrs.utilizationPercent && sample.memoryUsedBytes == m.attrs.memoryUsedBytes
      && sample.memoryTotalBytes == after.inventory.gpus.rows[id].attrs.memoryTotalBytes
      && m.key in LastWins(s.report.inventory.gpus)
      && sample.memoryTotalBytes == LastWins(s.report.inventory.gpus)[m.key].memoryTotalBytes
      && sample.memoryUsedBytes <= sample.memoryTotalBytes
  {
    hide Apply, Accepted, WfDb, RowsOf, SlotIs, Active, Wf, NoOrphans, References, KeysOf;
    CommittedSlots(db, digest, s);
    AcceptedIsValid(db, digest, s);
    UsableKeysAreDistinct(s.report.metrics.gpus);
    var after := Apply(db, digest, s);
    var ids := ActiveSetsOf(after.inventory, s.node);
    GpuRowsChecked(s.report, ids);
    id := DetailReadsBack(after.inventory.gpus, after.history.samples.gpus, BucketOf(s.report), s.node, s.report.metrics.gpus, GpuRow, i);
    ActiveAt(after.inventory.gpus, s.node);
  }

  // ---- the node row ----

  /** The node row of a committed report: its agent columns, its fingerprint, and when it was seen; no other row changes. */
  lemma NodeReadsBack(db: Db, digest: Digest, s: Step)
    requires WfDb(db, digest) && GoodDigest(digest) && WfInventory(db.inventory) && Accepted(db, digest, s)
    ensures var nodes := Apply(db, digest, s).nodes;
      && s.Post? && s.node in db.nodes && s.node in nodes
      && var before, after := db.nodes[s.node], nodes[s.node];
      && after.agent == s.report.agent && after.fingerprint == s.report.inventoryFingerprint
      && after.firstSeen == before.firstSeen && after.lastSeen == s.receivedAt
      && after.token.created == before.token.created && after.token.lastUsed == Some(s.receivedAt)
      && forall n :: n != s.node ==> (n in nodes <==> n in db.nodes) && (n in nodes ==> nodes[n] == db.nodes[n])
  {
    hide WfDb, WfInventory, ActiveSetsOf, RowsFailure, HealthFailure, WithSamples, WithCurrent, WithHealth, SyncedInventory,
      InventoryChecked, ExtendsInventory, ProjectsInventory, Normalize, Resolved, Validated;
    AcceptedFacts(db, digest, s);
  }

  /**
   * Registering a node again replaces its agent columns and its token and leaves what reports said of it; a new node
   * starts without a fingerprint; only a clock behind the token's creation undoes the registration.
   */
  lemma RegistrationReadsBack(db: Db, digest: Digest, s: Step)
    requires WfInventory(db.inventory) && s.Register?
    ensures var after := Apply(db, digest, s);
      && after == db.(nodes := after.nodes) && s.node in after.nodes
      && (forall n :: n != s.node ==> (n in after.nodes <==> n in db.nodes) && (n in db.nodes ==> after.nodes[n] == db.nodes[n]))
      && var now := after.nodes[s.node];
      if s.node in db.nodes then
        var before := db.nodes[s.node];
        && now.fingerprint == before.fingerprint && now.firstSeen == before.firstSeen && now.lastSeen == before.lastSeen
        && (s.at < before.token.created ==> now == before)
        && (before.token.created <= s.at ==> now.agent == s.agent && now.token.created == s.at && now.token.lastUsed == None)
      else
        && now.agent == s.agent && now.fingerprint == "" && now.firstSeen == s.at && now.lastSeen == s.at
        && now.token.created == s.at && now.token.lastUsed == None
  {
    hide WfInventory, Cycled, Ingest, Validated;
  }

  // ---- the current rows ----

  /** The row is the report's own, unless a row of a later minute was there before. */
  ghost predicate Shows<C>(before: map<ResourceKey, Latest<C>>, after: map<ResourceKey, Latest<C>>, k: ResourceKey, minute: Minute, value: C) {
    && k in after
    && (k in before && before[k].minute > minute ==> after[k] == before[k])
    && (k !in before || before[k].minute <= minute ==> after[k].minute == minute && after[k].value == value)
  }

  lemma RefreshedShows<S, C>(current: map<ResourceKey, Latest<C>>, minute: Minute, node: NodeId, view: S -> C, rows: map<Id, S>, id: Id)
    requires id in rows
    ensures Shows(current, Refreshed(current, minute, node, Viewed(view, rows)), ResourceKey(node, id), minute, view(rows[id]))
  {
    hide Refreshed;
    RefreshedAt(current, minute, node, Viewed(view, rows), ResourceKey(node, id));
  }

  /** The current tables after a commit, from the rows it stores. */
  lemma CommittedCurrent(db: Db, digest: Digest, s: Step)
    requires WfDb(db, digest) && GoodDigest(digest) && WfInventory(db.inventory) && Accepted(db, digest, s)
    ensures var after := Apply(db, digest, s);
      && s.Post? && WfInventory(after.inventory) && Resolved(ActiveSetsOf(after.inventory, s.node), s.report)
      && after.current == WithCurrent(db.current, BucketOf(s.report), s.node,
                                      ContributionOf(ActiveSetsOf(after.inventory, s.node), s.report, s.receivedAt))
  {
    CommittedSlots(db, digest, s);
    hide WfDb, WfInventory, ActiveSetsOf, RowsFailure, HealthFailure, WithSamples, WithCurrent, WithHealth, SyncedInventory, SlotShows,
      InventoryChecked, ExtendsInventory, ProjectsInventory, Normalize, Validated, RowsOf, IdsMatch, Apply, Accepted;
    AcceptedFacts(db, digest, s);
    var r := AsReceived(s.report);
    assert r.metrics == s.report.metrics && BucketOf(r) == BucketOf(s.report) && MainOf(r, s.receivedAt) == MainOf(s.report, s.receivedAt);
  }

  lemma StoredRowIs<T, M, S>(ids: map<string, Entry<T>>, metrics: seq<Item<M>>, make: (M, T) -> S, table: map<DetailKey, S>,
                             minute: Minute, node: NodeId, id: Id)
    requires forall i :: 0 <= i < |metrics| ==> metrics[i].key in ids
    requires SlotIs(table, minute, node, RowsOf(ids, metrics, make)) && DetailKey(minute, node, id) in table
    ensures id in RowsOf(ids, metrics, make) && table[DetailKey(minute, node, id)] == RowsOf(ids, metrics, make)[id]
  {
    hide RowsOf;
  }

  /** The current GPU row of a stored sample has the times of its report, and the sample's figures. */
  lemma GpuCurrentReadsBack(db: Db, digest: Digest, s: Step, id: Id)
    requires WfDb(db, digest) && GoodDigest(digest) && WfInventory(db.inventory) && Accepted(db, digest, s)
    requires s.Post? && DetailKey(BucketOf(s.report), s.node, id) in Apply(db, digest, s).history.samples.gpus
    ensures var after := Apply(db, digest, s);
      var sample := after.history.samples.gpus[DetailKey(BucketOf(s.report), s.node, id)];
      Shows(db.current.gpus, after.current.gpus, ResourceKey(s.node, id), BucketOf(s.report),
            GpuCurrent(s.report.collectedAt, s.receivedAt, sample.utilizationPercent, sample.memoryUsedBytes))
  {
    hide Apply, Accepted, WfDb, WfInventory, RowsOf, SlotIs, Refreshed, Viewed, Shows, IdsMatch, ActiveSetsOf;
    CommittedSlots(db, digest, s);
    CommittedCurrent(db, digest, s);
    var after := Apply(db, digest, s);
    var ids := ActiveSetsOf(after.inventory, s.node);
    StoredRowIs(ids.gpus, s.report.metrics.gpus, GpuRow, after.history.samples.gpus, BucketOf(s.report), s.node, id);
    RefreshedShows(db.current.gpus, BucketOf(s.report), s.node, WithTimes(MainOf(s.report, s.receivedAt)),
                   RowsOf(ids.gpus, s.report.metrics.gpus, GpuRow), id);
  }

  /** The current network row has the seconds its report covers, and the sample. */
  lemma NetworkCurrentReadsBack(db: Db, digest: Digest, s: Step, id: Id)
    requires WfDb(db, digest) && GoodDigest(digest) && WfInventory(db.inventory) && Accepted(db, digest, s)
    requires s.Post? && DetailKey(BucketOf(s.report), s.node, id) in Apply(db, digest, s).history.samples.network
    ensures var after := Apply(db, digest, s);
      Shows(db.current.network, after.current.network, ResourceKey(s.node, id), BucketOf(s.report),
            NetworkCurrent(s.report.intervalSeconds, after.history.samples.network[DetailKey(BucketOf(s.report), s.node, id)]))
  {
    hide Apply, Accepted, WfDb, WfInventory, RowsOf, SlotIs, Refreshed, Viewed, Shows, IdsMatch, ActiveSetsOf;
    CommittedSlots(db, digest, s);
    CommittedCurrent(db, digest, s);
    var after := Apply(db, digest, s);
    var ids := ActiveSetsOf(after.inventory, s.node);
    StoredRowIs(ids.nics, s.report.metrics.network, NetworkRow, after.history.samples.network, BucketOf(s.report), s.node, id);
    RefreshedShows(db.current.network, BucketOf(s.report), s.node, WithInterval(MainOf(s.report, s.receivedAt)),
                   RowsOf(ids.nics, s.report.metrics.network, NetworkRow), id);
  }

  /** The current filesystem row is the sample. */
  lemma FilesystemCurrentReadsBack(db: Db, digest: Digest, s: Step, id: Id)
    requires WfDb(db, digest) && GoodDigest(digest) && WfInventory(db.inventory) && Accepted(db, digest, s)
    requires s.Post? && DetailKey(BucketOf(s.report), s.node, id) in Apply(db, digest, s).history.samples.filesystems
    ensures var after := Apply(db, digest, s);
      Shows(db.current.filesystems, after.current.filesystems, ResourceKey(s.node, id), BucketOf(s.report),
            after.history.samples.filesystems[DetailKey(BucketOf(s.report), s.node, id)])
  {
    hide Apply, Accepted, WfDb, WfInventory, RowsOf, SlotIs, Refreshed, Viewed, Shows, IdsMatch, ActiveSetsOf;
    CommittedSlots(db, digest, s);
    CommittedCurrent(db, digest, s);
    var after := Apply(db, digest, s);
    var ids := ActiveSetsOf(after.inventory, s.node);
    StoredRowIs(ids.filesystems, s.report.metrics.filesystems, FilesystemRow, after.history.samples.filesystems, BucketOf(s.report), s.node, id);
    RefreshedShows(db.current.filesystems, BucketOf(s.report), s.node, SameSample,
                   RowsOf(ids.filesystems, s.report.metrics.filesystems, FilesystemRow), id);
  }

  // ---- health rows ----

  /** No row of the node shows a later minute than the report's. */
  ghost predicate NoneLater<K, V>(table: SnapshotTable<K, V>, node: NodeId, minute: Minute) {
    forall k :: k in table && k.node == node ==> table[k].minute <= minute
  }

  lemma {:induction false} SnapshotRowAt<M, K>(resolve: string -> Option<K>, metrics: seq<Item<M>>, i: nat)
    requires DistinctKeys(metrics) && i < |metrics|
    requires forall j :: 0 <= j < |metrics| ==> resolve(metrics[j].key).Some?
    requires forall j, k :: resolve(j).Some? && resolve(j) == resolve(k) ==> j == k
    ensures resolve(metrics[i].key).value in SnapshotRows(resolve, metrics)
    ensures SnapshotRows(resolve, metrics)[resolve(metrics[i].key).value] == metrics[i].attrs
  {
    var n := |metrics| - 1;
    if i < n {
      assert metrics[..n][i] == metrics[i];
      SnapshotRowAt(resolve, metrics[..n], i);
      assert metrics[i].key != metrics[n].key;
    }
  }

  lemma ReplacedRow<K, V>(table: SnapshotTable<K, V>, node: NodeId, s: Snapshot<K, V>, k: K)
    requires NoneLater(table, node, s.minute) && k in s.rows
    ensures var r := Replaced(table, node, s);
      SnapshotKey(node, k) in r && r[SnapshotKey(node, k)] == SnapshotRow(s.minute, s.collectedAt, s.receivedAt, s.rows[k])
  {}

  /** Each temperature of a committed report, unless a later report's are shown, with the report's times. */
  lemma TemperatureReadsBack(db: Db, digest: Digest, s: Step, i: nat)
    requires WfDb(db, digest) && GoodDigest(digest) && WfInventory(db.inventory) && Accepted(db, digest, s)
    requires s.Post? && i < |s.report.metrics.temperatures| && NoneLater(db.health.temperatures, s.node, BucketOf(s.report))
    ensures var rows, m := Apply(db, digest, s).health.temperatures, s.report.metrics.temperatures[i];
      && SnapshotKey(s.node, m.key) in rows
      && rows[SnapshotKey(s.node, m.key)] == SnapshotRow(BucketOf(s.report), s.report.collectedAt, s.receivedAt, m.attrs)
  {
    hide Apply, Accepted, WfDb, WfInventory, Replaced, SnapshotRows, ActiveSetsOf, HealthResolved, NoneLater;
    HealthStep(db, digest, s, s.node);
    AcceptedIsValid(db, digest, s);
    UsableKeysAreDistinct(s.report.metrics.temperatures);
    SnapshotRowAt(SensorKey, s.report.metrics.temperatures, i);
    ReplacedRow(db.health.temperatures, s.node, TemperatureSnapshot(AsReceived(s.report), s.receivedAt), s.report.metrics.temperatures[i].key);
  }

  /** Distinct keys that resolve to devices are found under the devices' rows. */
  lemma DriveRow(inv: InventoryDb, before: SnapshotTable<Id, StorageHealth>, node: NodeId, r: Report, receivedAt: Instant, i: nat) returns (id: Id)
    requires WfInventory(inv) && HealthResolved(ActiveSetsOf(inv, node), r) && Injective(Active(inv.blockDevices, node))
    requires DistinctKeys(r.metrics.storageHealth) && i < |r.metrics.storageHealth| && NoneLater(before, node, BucketOf(r))
    ensures ActiveUnder(inv.blockDevices, node, r.metrics.storageHealth[i].key, id)
    ensures var rows := Replaced(before, node, StorageSnapshot(ActiveSetsOf(inv, node), r, receivedAt));
      && SnapshotKey(node, id) in rows
      && rows[SnapshotKey(node, id)] == SnapshotRow(BucketOf(r), r.collectedAt, receivedAt, r.metrics.storageHealth[i].attrs)
  {
    hide Replaced, SnapshotRows, NoneLater, Active, Wf, NoOrphans, DistinctKeys;
    var ids, key := ActiveSetsOf(inv, node), r.metrics.storageHealth[i].key;
    SnapshotRowAt(DeviceId(ids), r.metrics.storageHealth, i);
    id := ids.blockDevices[key].id;
    ActiveAt(inv.blockDevices, node);
    assert Backed(inv.blockDevices, node, key, ids.blockDevices[key]);
    ReplacedRow(before, node, StorageSnapshot(ids, r, receivedAt), id);
  }

  /** Each storage metric, under the active device row of its key. */
  lemma StorageReadsBack(db: Db, digest: Digest, s: Step, i: nat) returns (id: Id)
    requires WfDb(db, digest) && GoodDigest(digest) && WfInventory(db.inventory) && Accepted(db, digest, s)
    requires s.Post? && i < |s.report.metrics.storageHealth| && NoneLater(db.health.storage, s.node, BucketOf(s.report))
    ensures var after, m := Apply(db, digest, s), s.report.metrics.storageHealth[i];
      && ActiveUnder(after.inventory.blockDevices, s.node, m.key, id)
      && SnapshotKey(s.node, id) in after.health.storage
      && after.health.storage[SnapshotKey(s.node, id)] == SnapshotRow(BucketOf(s.report), s.report.collectedAt, s.receivedAt, m.attrs)
  {
    hide Apply, Accepted, WfDb, WfInventory, Replaced, SnapshotRows, NoneLater, Active, References, RowsOf, SlotIs, SlotShows, Injective,
      DistinctKeys, HealthResolved, Resolved, ValidInventory;
    HealthStep(db, digest, s, s.node);
    CommittedSlots(db, digest, s);
    AcceptedIsValid(db, digest, s);
    UsableKeysAreDistinct(s.report.metrics.storageHealth);
    var r := AsReceived(s.report);
    assert r.metrics == s.report.metrics && BucketOf(r) == BucketOf(s.report) && r.collectedAt == s.report.collectedAt;
    id := DriveRow(Apply(db, digest, s).inventory, db.health.storage, s.node, r, s.receivedAt, i);
  }
}
