/** The store: methods that change the database, each proved against its specification (internal/store). */
module Stores {
  import opened Text
  import opened Clock
  import opened Reports
  import opened Inventories
  import opened InventoryTables
  import opened NetworkTables
  import opened InventoryDatabase
  import opened Samples
  import opened Snapshots
  import opened Rollups
  import opened Partitions
  import opened Database
  import opened Ingestion
  import opened Acceptance
  import opened Runs
  import opened Validation

  class Store {
    var nodes: map<NodeId, Node>
    var inventory: InventoryDb
    var history: History
    var current: CurrentDb
    var health: HealthDb

    /** The committed database. */
    function Contents(): Db
      reads this
    {
      Db(nodes, inventory, history, current, health)
    }

    ghost predicate Valid(digest: Digest)
      reads this
    {
      WfDb(Contents(), digest)
    }

    constructor (digest: Digest)
      ensures Contents() == EmptyDb() && Valid(digest)
    {
      var empty := EmptyDb();
      nodes, inventory, history, current, health := empty.nodes, empty.inventory, empty.history, empty.current, empty.health;
      new;
      EmptyIsWf(digest);
    }

    method Register(digest: Digest, node: NodeId, agent: AgentInfo, at: Instant)
      requires Valid(digest) && GoodDigest(digest)
      modifies this`nodes
      ensures Valid(digest) && Contents() == Apply(old(Contents()), digest, Step.Register(node, agent, at))
    {
      ghost var before := Contents();
      var token := Token(at, None);
      if node !in nodes {
        nodes := nodes[node := Node(agent, "", at, at, token)];
      } else if at >= nodes[node].token.created {
        nodes := nodes[node := nodes[node].(agent := agent, token := token)];
      }
      assert Contents() == Apply(before, digest, Step.Register(node, agent, at));
      hide *;
      ApplyKeepsWf(before, digest, Step.Register(node, agent, at));
    }

    /** One transaction: it works on its own copies, and either all of them are committed or none. */
    method Ingest(digest: Digest, node: NodeId, r: Report, receivedAt: Instant) returns (failure: Option<Failure>)
      requires Valid(digest)
      modifies this
      ensures match Database.Ingest(old(Contents()), node, r, receivedAt)
              case Committed(db) => failure.None? && Contents() == db
              case RolledBack(reason) => failure == Some(reason) && Contents() == old(Contents())
    {
      hide WfHistory, InventoryChecked, FingerprintsTrue, CurrentAgrees, DaysWhole, SamplesChecked, ResourcesExist, WfInventory,
        FirstFailure, RowsOf, Placed, Refreshed, Viewed, FirstUnstorable, SnapshotRows, CanBeReplaced, Replaced, SyncInventory, Active;
      ghost var before := Contents();
      if node !in nodes {
        return Some(UnknownNode);
      }
      if receivedAt < nodes[node].firstSeen {
        return Some(CheckViolation);
      }
      if receivedAt < nodes[node].token.created {
        return Some(CheckViolation);
      }
      var nodes' := nodes[node := Seen(nodes[node], r, receivedAt)];
      var inventory' := inventory;
      if nodes[node].fingerprint != r.inventoryFingerprint {
        inventory' := SyncAllTables(inventory, node, r.inventory, receivedAt);
      }
      assert inventory' == SyncedInventory(before, node, r, receivedAt);
      SyncedWf(before, node, r, receivedAt);
      var checked := CheckInventory(inventory');
      if !checked {
        return Some(CheckViolation);
      }
      var ids := ReadActiveSets(inventory', node);
      var rows, samples', current' := StoreSamples(ids, history, current, node, r, receivedAt);
      if rows.Some? {
        return rows;
      }
      var snapshots, health' := StoreHealth(ids, health, node, r, receivedAt);
      if snapshots.Some? {
        return snapshots;
      }
      nodes, inventory, history, current, health := nodes', inventory', history.(samples := samples'), current', health';
      failure := None;
    }

    /** The report handler: validate, then ingest the normalised report. */
    method Post(digest: Digest, node: NodeId, report: Report, at: Instant, receivedAt: Instant) returns (answer: Answer)
      requires Valid(digest) && GoodDigest(digest)
      modifies this
      ensures Valid(digest) && Contents() == Apply(old(Contents()), digest, Step.Post(node, report, at, receivedAt))
      ensures answer == if !Validated(report, digest, at) then Unprocessable
                        else match Verdict(old(Contents()), node, report, receivedAt)
                             case Some(reason) => Failed(reason)
                             case None => Stored
    {
      hide WfHistory, InventoryChecked, FingerprintsTrue, CurrentAgrees, DaysWhole, SamplesChecked, ResourcesExist, WfInventory,
        Validated, Normalize, Database.Ingest, Verdict, NodesChecked;
      ghost var before, s := Contents(), Step.Post(node, report, at, receivedAt);
      ApplyKeepsWf(before, digest, s);
      var ok, received := Validate(digest, report, at);
      if !ok {
        return Unprocessable;
      }
      ValidatedOutcome(before, digest, node, report, at, receivedAt);
      var failure := Ingest(digest, node, received, receivedAt);
      answer := if failure.Some? then Failed(failure.value) else Stored;
    }

    /** `runMaintenanceCycle`, when nothing in it fails. */
    method RunMaintenance(digest: Digest, at: Instant)
      requires Valid(digest) && GoodDigest(digest)
      modifies this`history
      ensures Valid(digest) && Contents() == Apply(old(Contents()), digest, Cycle(at))
    {
      hide InventoryChecked, FingerprintsTrue, CurrentAgrees, DaysWhole, SamplesChecked, ResourcesExist, WfInventory, Cycled,
        NodesChecked, RowsPartitioned, DetailsHaveMain;
      ghost var before := Contents();
      ApplyKeepsWf(before, digest, Cycle(at));
      history := RunMaintenanceCycle(history, at);
    }
  }

  datatype Answer = Stored | Unprocessable | Failed(reason: Failure)

  method RowsAreChecked<O, T>(t: Table<O, T>) returns (ok: bool)
    ensures ok <==> RowsChecked(t)
  {
    ok := forall id :: id in t.rows ==>
      t.rows[id].firstSeen <= t.rows[id].lastSeen
      && (t.rows[id].removedAt.Some? ==> t.rows[id].firstSeen <= t.rows[id].removedAt.value);
  }

  /** What PostgreSQL does at each statement of the sync. */
  method CheckInventory(inv: InventoryDb) returns (ok: bool)
    ensures ok <==> InventoryChecked(inv)
  {
    hide RowsChecked;
    var a := RowsAreChecked(inv.cpuPackages);
    var b := RowsAreChecked(inv.memoryModules);
    var c := RowsAreChecked(inv.blockDevices);
    var d := RowsAreChecked(inv.filesystems);
    var e := RowsAreChecked(inv.net.nics);
    var f := RowsAreChecked(inv.net.addresses);
    var g := RowsAreChecked(inv.gpus);
    ok := a && b && c && d && e && f && g;
  }

  method ReadActiveSets(inv: InventoryDb, node: NodeId) returns (ids: ActiveSets)
    requires WfInventory(inv)
    ensures ids == ActiveSetsOf(inv, node)
  {
    hide Active, Wf, NoOrphans;
    var filesystems := ActiveIds(inv.filesystems, node);
    var nics := ActiveIds(inv.net.nics, node);
    var gpus := ActiveIds(inv.gpus, node);
    var blockDevices := ActiveIds(inv.blockDevices, node);
    ids := ActiveSets(filesystems, nics, gpus, blockDevices);
  }

  ghost function SamplesFailure(ids: ActiveSets, partitions: set<Partition>, r: Report, receivedAt: Instant): Option<Failure> {
    if MainFailure(partitions, BucketOf(r), MainOf(r, receivedAt)).Some? then MainFailure(partitions, BucketOf(r), MainOf(r, receivedAt))
    else if FilesystemFailure(ids, partitions, r).Some? then FilesystemFailure(ids, partitions, r)
    else if NetworkFailure(ids, partitions, r).Some? then NetworkFailure(ids, partitions, r)
    else GpuFailure(ids, partitions, r)
  }

  /** The upsert of the main sample, the three replacements, and the triggers that fire on every row. */
  method StoreSamples(ids: ActiveSets, history: History, current: CurrentDb, node: NodeId, r: Report, receivedAt: Instant)
    returns (failure: Option<Failure>, samples': SampleDb, current': CurrentDb)
    ensures failure == SamplesFailure(ids, history.partitions, r, receivedAt)
    ensures failure.None? ==>
              && Resolved(ids, r)
              && samples' == WithSamples(history.samples, BucketOf(r), node, ContributionOf(ids, r, receivedAt))
              && current' == WithCurrent(current, BucketOf(r), node, ContributionOf(ids, r, receivedAt))
  {
    hide FirstFailure, RowsOf, Placed, Refreshed, Viewed, DayReady;
    var minute, main := BucketOf(r), MainOf(r, receivedAt);
    var s, p := history.samples, history.partitions;
    samples', current' := s, current;
    if !DayReady(p, NodeSamples, minute) {
      return Some(MissingPartition), samples', current';
    }
    if !MainChecked(main) {
      return Some(CheckViolation), samples', current';
    }
    var mains := s.main[MinuteKey(minute, node) := main];
    var nodeRows := TouchLatest(current.nodes, node, minute, main);
    var filesystems, filesystemRows, network, networkRows, gpus, gpuRows;
    failure, filesystems, filesystemRows := InsertSamples(ids.filesystems, r.metrics.filesystems, FilesystemRow, FilesystemChecked,
      SameSample, DayReady(p, FilesystemSamples, minute), minute, node, s.filesystems, current.filesystems);
    if failure.Some? { return; }
    failure, network, networkRows := InsertSamples(ids.nics, r.metrics.network, NetworkRow, NetworkChecked,
      WithInterval(mains[MinuteKey(minute, node)]), DayReady(p, NetworkSamples, minute), minute, node, s.network, current.network);
    if failure.Some? { return; }
    failure, gpus, gpuRows := InsertSamples(ids.gpus, r.metrics.gpus, GpuRow, GpuChecked,
      WithTimes(mains[MinuteKey(minute, node)]), DayReady(p, GpuSamples, minute), minute, node, s.gpus, current.gpus);
    if failure.Some? { return; }
    samples' := SampleDb(mains, filesystems, network, gpus);
    current' := CurrentDb(nodeRows, filesystemRows, networkRows, gpuRows);
  }

  method StoreHealth(ids: ActiveSets, health: HealthDb, node: NodeId, r: Report, receivedAt: Instant)
    returns (failure: Option<Failure>, health': HealthDb)
    ensures failure == HealthFailure(ids, health, node, r)
    ensures failure.None? ==> health' == WithHealth(health, node, ids, r, receivedAt)
  {
    hide FirstUnstorable, SnapshotRows, CanBeReplaced, Installed, Filled;
    var temperatures, storage;
    health' := health;
    failure, temperatures := ReplaceSnapshot(health.temperatures, node, BucketOf(r), r.collectedAt, receivedAt, SensorKey, r.metrics.temperatures);
    if failure.Some? { return; }
    failure, storage := ReplaceSnapshot(health.storage, node, BucketOf(r), r.collectedAt, receivedAt, DeviceId(ids), r.metrics.storageHealth);
    if failure.Some? { return; }
    health' := HealthDb(temperatures, storage);
  }
}
