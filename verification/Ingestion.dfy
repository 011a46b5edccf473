/** What the database is like between transactions, and what one committed report does to it. */
module Ingestion {
  import opened Text
  import opened Clock
  import opened Reports
  import opened Inventories
  import opened InventoryTables
  import opened NetworkTables
  import opened NetworkFacts
  import opened InventoryDatabase
  import opened Samples
  import opened Snapshots
  import opened Rollups
  import opened Partitions
  import opened Database

  type Digest = Inventory -> string

  // ---- the invariants ----

  ghost predicate NodesChecked(nodes: map<NodeId, Node>) {
    forall n :: n in nodes ==> NodeChecked(nodes[n])
  }

  /** Seen times and token times in order; a token is never older than its node. */
  ghost predicate NodeChecked(n: Node) {
    && n.firstSeen <= n.lastSeen && n.firstSeen <= n.token.created
    && (n.token.lastUsed.Some? ==> n.token.created <= n.token.lastUsed.value)
  }

  /** The stored fingerprint is a cache: whatever inventory it belongs to is the one the active rows show. */
  ghost predicate FingerprintsTrue(nodes: map<NodeId, Node>, inventory: InventoryDb, digest: Digest) {
    forall n, inv :: n in nodes && KeysDistinct(inv) && digest(inv) == nodes[n].fingerprint ==> ProjectsInventory(inventory, n, inv)
  }

  function PlainView(): (DetailKey, FilesystemSample) -> FilesystemSample {
    (k, s) => s
  }

  function NetworkView(main: map<MinuteKey, MainSample>): (DetailKey, NetworkMetrics) -> NetworkCurrent {
    (k: DetailKey, s: NetworkMetrics) =>
      if MinuteKey(k.minute, k.node) in main then WithInterval(main[MinuteKey(k.minute, k.node)])(s) else NetworkCurrent(0, s)
  }

  function GpuView(main: map<MinuteKey, MainSample>): (DetailKey, GpuSample) -> GpuCurrent {
    (k: DetailKey, s: GpuSample) =>
      if MinuteKey(k.minute, k.node) in main then WithTimes(main[MinuteKey(k.minute, k.node)])(s)
      else GpuCurrent(0, 0, s.utilizationPercent, s.memoryUsedBytes)
  }

  ghost predicate NodesAgree(main: map<MinuteKey, MainSample>, current: map<NodeId, Latest<MainSample>>) {
    forall k :: k in main ==> ShownBy(current, k.node, k.minute, main[k])
  }

  /**
   * Every stored sample's resource has a current row at least as late, and equal to the sample when equally late;
   * a network row carries the interval, a GPU row the times, of the main sample of its minute.
   */
  ghost predicate CurrentAgrees(s: SampleDb, c: CurrentDb) {
    && NodesAgree(s.main, c.nodes)
    && Agrees(s.filesystems, c.filesystems, PlainView())
    && Agrees(s.network, c.network, NetworkView(s.main))
    && Agrees(s.gpus, c.gpus, GpuView(s.main))
  }

  ghost predicate SamplesChecked(s: SampleDb) {
    && (forall k :: k in s.main ==> MainChecked(s.main[k]))
    && (forall k :: k in s.filesystems ==> FilesystemChecked(s.filesystems[k]))
    && (forall k :: k in s.gpus ==> GpuChecked(s.gpus[k]))
  }

  /** The foreign keys of the detail tables on the inventory tables. */
  ghost predicate ResourcesExist(s: SampleDb, inv: InventoryDb) {
    && (forall k :: k in s.filesystems ==> Owned(inv.filesystems, k.node, k.resource))
    && (forall k :: k in s.network ==> Owned(inv.net.nics, k.node, k.resource))
    && (forall k :: k in s.gpus ==> Owned(inv.gpus, k.node, k.resource))
  }

  ghost predicate Owned<T>(t: Table<NodeId, T>, node: NodeId, id: Id) {
    id in t.rows && t.rows[id].owner == node
  }

  /** A day has all its raw partitions or none. */
  ghost predicate DaysWhole(partitions: set<Partition>) {
    forall p :: p in partitions && IsRaw(p.parent) ==> RawPartitions(p.index) <= partitions
  }

  ghost predicate WfDb(db: Db, digest: Digest) {
    && NodesChecked(db.nodes)
    && WfInventory(db.inventory) && InventoryChecked(db.inventory)
    && FingerprintsTrue(db.nodes, db.inventory, digest)
    && WfHistory(db.history) && DaysWhole(db.history.partitions)
    && SamplesChecked(db.history.samples) && ResourcesExist(db.history.samples, db.inventory)
    && CurrentAgrees(db.history.samples, db.current)
  }

  /** What `Validate` leaves true of a report it accepts: distinct keys, and a fingerprint of the very inventory. */
  ghost predicate Sealed(r: Report, digest: Digest) {
    KeysDistinct(r.inventory) && r.inventoryFingerprint == digest(r.inventory)
  }

  // ---- the inventory ----

  /** Whether or not the sync ran, the active rows now show the report's inventory, and everyone else's are as before. */
  lemma SyncedShowsReport(db: Db, digest: Digest, node: NodeId, r: Report, receivedAt: Instant)
    requires GoodDigest(digest) && Sealed(r, digest)
    requires node in db.nodes && WfInventory(db.inventory) && FingerprintsTrue(db.nodes, db.inventory, digest)
    ensures var synced := SyncedInventory(db, node, r, receivedAt);
      && WfInventory(synced) && ExtendsInventory(db.inventory, synced)
      && ProjectsInventory(synced, node, r.inventory)
      && FingerprintsTrue(db.nodes[node := Seen(db.nodes[node], r, receivedAt)], synced, digest)
  {
    hide WfInventory, ExtendsInventory, SyncInventory, ProjectsInventory, KeysDistinct;
    var synced := SyncedInventory(db, node, r, receivedAt);
    SyncedWf(db, node, r, receivedAt);
    if db.nodes[node].fingerprint != r.inventoryFingerprint {
      SyncInventoryProjects(db.inventory, node, r.inventory, receivedAt);
    }
    var nodes := db.nodes[node := Seen(db.nodes[node], r, receivedAt)];
    forall n, inv | n in nodes && KeysDistinct(inv) && digest(inv) == nodes[n].fingerprint
      ensures ProjectsInventory(synced, n, inv)
    {
      if n == node {
        assert inv == r.inventory;
      } else {
        assert ProjectsInventory(db.inventory, n, inv);
        if db.nodes[node].fingerprint != r.inventoryFingerprint {
          SyncInventoryOthers(db.inventory, node, r.inventory, receivedAt, n, inv);
        }
      }
    }
  }

  lemma ActiveOwned<T>(t: Table<NodeId, T>, node: NodeId)
    requires Wf(t)
    ensures forall k :: k in Active(t, node) ==> Owned(t, node, Active(t, node)[k].id)
    ensures forall j, k :: j in Active(t, node) && k in Active(t, node) && Active(t, node)[j].id == Active(t, node)[k].id ==> j == k
  {
    hide Active;
    ActiveAt(t, node);
    forall k | k in Active(t, node) ensures Owned(t, node, Active(t, node)[k].id) {
      assert Backed(t, node, k, Active(t, node)[k]);
    }
    forall j, k | j in Active(t, node) && k in Active(t, node) && Active(t, node)[j].id == Active(t, node)[k].id ensures j == k {
      assert Backed(t, node, j, Active(t, node)[j]) && Backed(t, node, k, Active(t, node)[k]);
    }
  }

  lemma ExtendsOwned<T>(t: Table<NodeId, T>, u: Table<NodeId, T>, node: NodeId, id: Id)
    requires Extends(t, u) && Owned(t, node, id)
    ensures Owned(u, node, id)
  {
    assert SameIdentity(t.rows[id], u.rows[id]);
  }

  // ---- the samples ----

  /** Every row that was resolved passed its check and names a row of the node. */
  lemma {:induction false} StoredRowsChecked<T, M, S>(ids: map<string, Entry<T>>, metrics: seq<Item<M>>, make: (M, T) -> S,
                                                      check: S -> bool, partitioned: bool)
    requires FirstFailure(ids, metrics, make, check, partitioned).None?
    ensures forall id :: id in RowsOf(ids, metrics, make) ==>
              check(RowsOf(ids, metrics, make)[id]) && partitioned && exists k :: k in ids && ids[k].id == id
  {
    if metrics != [] {
      var n := |metrics| - 1;
      StoredRowsChecked(ids, metrics[..n], make, check, partitioned);
    }
  }

  ghost predicate RowsFit<T, S>(rows: map<Id, S>, t: Table<NodeId, T>, node: NodeId, check: S -> bool, partitioned: bool) {
    forall id :: id in rows ==> check(rows[id]) && partitioned && Owned(t, node, id)
  }

  /** What a transaction that gets past all failures is about to store. */
  ghost predicate Fits(c: Contribution, inv: InventoryDb, partitions: set<Partition>, minute: Minute, node: NodeId) {
    && DayReady(partitions, NodeSamples, minute) && MainChecked(c.main)
    && RowsFit(c.filesystems, inv.filesystems, node, FilesystemChecked, DayReady(partitions, FilesystemSamples, minute))
    && RowsFit(c.network, inv.net.nics, node, NetworkChecked, DayReady(partitions, NetworkSamples, minute))
    && RowsFit(c.gpus, inv.gpus, node, GpuChecked, DayReady(partitions, GpuSamples, minute))
  }

  lemma {:induction false} ResolvedRowsFit<T, M, S>(t: Table<NodeId, T>, node: NodeId, metrics: seq<Item<M>>, make: (M, T) -> S, check: S -> bool,
                                 partitioned: bool)
    requires Wf(t) && FirstFailure(Active(t, node), metrics, make, check, partitioned).None?
    ensures RowsFit(RowsOf(Active(t, node), metrics, make), t, node, check, partitioned)
  {
    hide Active, FirstFailure, RowsOf, Wf;
    StoredRowsChecked(Active(t, node), metrics, make, check, partitioned);
    ActiveOwned(t, node);
  }

  lemma ContributionFits(inv: InventoryDb, db: Db, node: NodeId, r: Report, receivedAt: Instant)
    requires WfInventory(inv)
    requires RowsFailure(ActiveSetsOf(inv, node), db, node, r, receivedAt).None?
    ensures Resolved(ActiveSetsOf(inv, node), r)
    ensures Fits(ContributionOf(ActiveSetsOf(inv, node), r, receivedAt), inv, db.history.partitions, BucketOf(r), node)
  {
    hide Active, FirstFailure, RowsOf, DayReady, RowsFit, Wf, NoOrphans, MainChecked, HealthFailure;
    var ids := ActiveSetsOf(inv, node);
    var partitions := db.history.partitions;
    NoFailureResolves(ids, db, node, r, receivedAt);
    assert MainFailure(partitions, BucketOf(r), MainOf(r, receivedAt)).None?;
    assert FilesystemFailure(ids, partitions, r).None? && NetworkFailure(ids, partitions, r).None? && GpuFailure(ids, partitions, r).None?;
    ResolvedRowsFit(inv.filesystems, node, r.metrics.filesystems, FilesystemRow, FilesystemChecked, DayReady(partitions, FilesystemSamples, BucketOf(r)));
    ResolvedRowsFit(inv.net.nics, node, r.metrics.network, NetworkRow, NetworkChecked, DayReady(partitions, NetworkSamples, BucketOf(r)));
    ResolvedRowsFit(inv.gpus, node, r.metrics.gpus, GpuRow, GpuChecked, DayReady(partitions, GpuSamples, BucketOf(r)));
  }

  lemma PlacedAt<S>(table: map<DetailKey, S>, minute: Minute, node: NodeId, rows: map<Id, S>, k: DetailKey)
    ensures var t := Placed(table, minute, node, rows);
      if k.minute == minute && k.node == node
      then (k in t <==> k.resource in rows) && (k in t ==> t[k] == rows[k.resource])
      else (k in t <==> k in table) && (k in t ==> t[k] == table[k])
  {}

  /** Partitions, checks and foreign keys of one detail table. */
  ghost predicate TableFits<T, S>(main: map<MinuteKey, MainSample>, table: map<DetailKey, S>, t: Table<NodeId, T>,
                                  check: S -> bool, partitions: set<Partition>, parent: Parent) {
    forall k :: k in table ==>
      && check(table[k]) && DayReady(partitions, parent, k.minute) && Owned(t, k.node, k.resource)
      && MinuteKey(k.minute, k.node) in main
  }

  lemma PlacedFits<T, S>(main: map<MinuteKey, MainSample>, table: map<DetailKey, S>, minute: Minute, node: NodeId,
                         rows: map<Id, S>, sample: MainSample, t: Table<NodeId, T>, u: Table<NodeId, T>,
                         check: S -> bool, partitions: set<Partition>, parent: Parent)
    requires RowsFit(rows, u, node, check, DayReady(partitions, parent, minute)) && Extends(t, u)
    requires TableFits(main, table, t, check, partitions, parent)
    ensures TableFits(main[MinuteKey(minute, node) := sample], Placed(table, minute, node, rows), u, check, partitions, parent)
  {
    hide DayReady, Placed, Extends, Owned;
    var p := Placed(table, minute, node, rows);
    forall k | k in p
      ensures check(p[k]) && DayReady(partitions, parent, k.minute) && Owned(u, k.node, k.resource)
              && MinuteKey(k.minute, k.node) in main[MinuteKey(minute, node) := sample]
    {
      PlacedAt(table, minute, node, rows, k);
      if !(k.minute == minute && k.node == node) {
        ExtendsOwned(t, u, k.node, k.resource);
      }
    }
  }

  ghost predicate TablesFit(s: SampleDb, inv: InventoryDb, partitions: set<Partition>) {
    && (forall k :: k in s.main ==> MainChecked(s.main[k]) && DayReady(partitions, NodeSamples, k.minute))
    && TableFits(s.main, s.filesystems, inv.filesystems, FilesystemChecked, partitions, FilesystemSamples)
    && TableFits(s.main, s.network, inv.net.nics, NetworkChecked, partitions, NetworkSamples)
    && TableFits(s.main, s.gpus, inv.gpus, GpuChecked, partitions, GpuSamples)
  }

  ghost predicate HoursPartitioned(h: HourlyDb, partitions: set<Partition>) {
    && (forall k :: k in h.nodes ==> Partition(NodeHourly, MonthOfHour(k.hour)) in partitions)
    && (forall k :: k in h.filesystems ==> Partition(FilesystemHourly, MonthOfHour(k.hour)) in partitions)
    && (forall k :: k in h.network ==> Partition(NetworkHourly, MonthOfHour(k.hour)) in partitions)
    && (forall k :: k in h.gpus ==> Partition(GpuHourly, MonthOfHour(k.hour)) in partitions)
  }

  lemma TablesFitIff(h: History, inv: InventoryDb)
    ensures WfHistory(h) && SamplesChecked(h.samples) && ResourcesExist(h.samples, inv)
            <==> TablesFit(h.samples, inv, h.partitions) && HoursPartitioned(h.hourly, h.partitions)
  {
    hide MonthOfHour, DayOfMinute, Owned, MainChecked, FilesystemChecked, GpuChecked;
  }

  /** The sample tables after one report. */
  lemma SamplesKept(h: History, inv: InventoryDb, synced: InventoryDb, minute: Minute, node: NodeId, c: Contribution)
    requires WfHistory(h) && SamplesChecked(h.samples) && ResourcesExist(h.samples, inv)
    requires ExtendsInventory(inv, synced) && Fits(c, synced, h.partitions, minute, node)
    ensures var stored := WithSamples(h.samples, minute, node, c);
      WfHistory(h.(samples := stored)) && SamplesChecked(stored) && ResourcesExist(stored, synced)
  {
    var stored := WithSamples(h.samples, minute, node, c);
    TablesFitIff(h, inv);
    TablesFitIff(h.(samples := stored), synced);
    hide WfHistory, SamplesChecked, ResourcesExist, HoursPartitioned, TableFits, Placed, DayReady, Extends, RowsFit;
    var s, p := h.samples, h.partitions;
    PlacedFits(s.main, s.filesystems, minute, node, c.filesystems, c.main, inv.filesystems, synced.filesystems, FilesystemChecked, p, FilesystemSamples);
    PlacedFits(s.main, s.network, minute, node, c.network, c.main, inv.net.nics, synced.net.nics, NetworkChecked, p, NetworkSamples);
    PlacedFits(s.main, s.gpus, minute, node, c.gpus, c.main, inv.gpus, synced.gpus, GpuChecked, p, GpuSamples);
  }

  lemma ViewedIs<S, C>(view: S -> C, rows: map<Id, S>)
    ensures Viewed(view, rows).Keys == rows.Keys
    ensures forall id :: id in rows ==> Viewed(view, rows)[id] == view(rows[id])
  {}

  /** The current tables still agree with the samples after one report, whatever minute it is for. */
  lemma CurrentKept(s: SampleDb, current: CurrentDb, minute: Minute, node: NodeId, c: Contribution)
    requires CurrentAgrees(s, current)
    ensures CurrentAgrees(WithSamples(s, minute, node, c), WithCurrent(current, minute, node, c))
  {
    hide Placed, Refreshed, Agrees, Viewed;
    var main := s.main[MinuteKey(minute, node) := c.main];
    var shown := Viewed(SameSample, c.filesystems);
    ViewedIs(SameSample, c.filesystems);
    AgreesKept(s.filesystems, current.filesystems, PlainView(), PlainView(), minute, node, c.filesystems, shown);
    var network := Viewed(WithInterval(c.main), c.network);
    ViewedIs(WithInterval(c.main), c.network);
    AgreesKept(s.network, current.network, NetworkView(s.main), NetworkView(main), minute, node, c.network, network);
    var gpus := Viewed(WithTimes(c.main), c.gpus);
    ViewedIs(WithTimes(c.main), c.gpus);
    AgreesKept(s.gpus, current.gpus, GpuView(s.main), GpuView(main), minute, node, c.gpus, gpus);
    NodesKept(s.main, current.nodes, minute, node, c.main);
  }

  lemma NodesKept(main: map<MinuteKey, MainSample>, current: map<NodeId, Latest<MainSample>>, minute: Minute, node: NodeId, s: MainSample)
    requires NodesAgree(main, current)
    ensures NodesAgree(main[MinuteKey(minute, node) := s], TouchLatest(current, node, minute, s))
  {
    var m, c := main[MinuteKey(minute, node) := s], TouchLatest(current, node, minute, s);
    forall k | k in m ensures ShownBy(c, k.node, k.minute, m[k]) {
      if k != MinuteKey(minute, node) {
        assert ShownBy(current, k.node, k.minute, main[k]);
      }
    }
  }

  // ---- the step ----

  /** What a committed report changed. */
  ghost predicate IsStep(db: Db, after: Db, node: NodeId, r: Report, receivedAt: Instant)
    requires WfInventory(db.inventory)
  {
    && node in db.nodes && Admits(db.nodes[node], receivedAt)
    && after.nodes == db.nodes[node := Seen(db.nodes[node], r, receivedAt)]
    && after.inventory == SyncedInventory(db, node, r, receivedAt) && InventoryChecked(after.inventory)
    && WfInventory(after.inventory)
    && var ids := ActiveSetsOf(after.inventory, node);
    && RowsFailure(ids, db, node, r, receivedAt).None?
    && Resolved(ids, r) && HealthFailure(ids, db.health, node, r).None?
    && var c := ContributionOf(ids, r, receivedAt);
    && after.history == db.history.(samples := WithSamples(db.history.samples, BucketOf(r), node, c))
    && after.current == WithCurrent(db.current, BucketOf(r), node, c)
    && after.health == WithHealth(db.health, node, ids, r, receivedAt)
  }

  lemma CommittedIsStep(db: Db, node: NodeId, r: Report, receivedAt: Instant)
    requires WfInventory(db.inventory)
    ensures var outcome := Ingest(db, node, r, receivedAt);
      outcome.Committed? ==> IsStep(db, outcome.db, node, r, receivedAt)
  {
    hide WfInventory, InventoryChecked, WithSamples, WithCurrent, WithHealth, ContributionOf, ActiveSetsOf, SyncedInventory, Seen,
      MainFailure, FilesystemFailure, NetworkFailure, GpuFailure, HealthFailure, Resolved;
    if Ingest(db, node, r, receivedAt).Committed? {
      SyncedWf(db, node, r, receivedAt);
      var ids := ActiveSetsOf(SyncedInventory(db, node, r, receivedAt), node);
      NoFailureResolves(ids, db, node, r, receivedAt);
    }
  }

  /** Every committed report keeps the invariants, and leaves the active rows showing its inventory. */
  lemma IngestKeepsWf(db: Db, digest: Digest, node: NodeId, r: Report, receivedAt: Instant)
    requires WfDb(db, digest) && GoodDigest(digest) && Sealed(r, digest)
    ensures var outcome := Ingest(db, node, r, receivedAt);
      outcome.Committed? ==>
        && WfDb(outcome.db, digest)
        && ProjectsInventory(outcome.db.inventory, node, r.inventory)
        && ExtendsInventory(db.inventory, outcome.db.inventory)
  {
    var outcome := Ingest(db, node, r, receivedAt);
    CommittedIsStep(db, node, r, receivedAt);
    if outcome.Committed? {
      StepKeepsWf(db, outcome.db, digest, node, r, receivedAt);
    }
  }

  lemma StepKeepsWf(db: Db, after: Db, digest: Digest, node: NodeId, r: Report, receivedAt: Instant)
    requires WfDb(db, digest) && GoodDigest(digest) && Sealed(r, digest) && IsStep(db, after, node, r, receivedAt)
    ensures WfDb(after, digest) && ProjectsInventory(after.inventory, node, r.inventory)
    ensures ExtendsInventory(db.inventory, after.inventory)
  {
    hide WfInventory, InventoryChecked, FingerprintsTrue, WfHistory, SamplesChecked, ResourcesExist, CurrentAgrees, WithSamples,
      WithCurrent, WithHealth, ContributionOf, RowsFailure, HealthFailure, ActiveSetsOf, ProjectsInventory, ExtendsInventory,
      SyncedInventory, Fits, Sealed, DaysWhole, Resolved;
    SyncedShowsReport(db, digest, node, r, receivedAt);
    ContributionFits(after.inventory, db, node, r, receivedAt);
    var c := ContributionOf(ActiveSetsOf(after.inventory, node), r, receivedAt);
    SamplesKept(db.history, db.inventory, after.inventory, BucketOf(r), node, c);
    CurrentKept(db.history.samples, db.current, BucketOf(r), node, c);
  }
}
