/** All inventory tables together: `syncInventory` (internal/store/ingest.go:308-328). */
module InventoryDatabase {
  import opened Text
  import opened Clock
  import opened Reports
  import opened Inventories
  import opened InventoryTables
  import opened NetworkTables
  import opened NetworkFacts

  datatype InventoryDb = InventoryDb(
    cpuPackages: Table<NodeId, CpuPackage>,
    memoryModules: Table<NodeId, MemoryModule>,
    blockDevices: Table<NodeId, BlockDevice>,
    filesystems: Table<NodeId, Filesystem>,
    net: NetTables,
    gpus: Table<NodeId, Gpu>)

  ghost predicate WfInventory(db: InventoryDb) {
    && Wf(db.cpuPackages) && Wf(db.memoryModules) && Wf(db.blockDevices) && Wf(db.filesystems)
    && WfNet(db.net) && NoOrphans(db.net) && Wf(db.gpus)
  }

  /** The active rows of the node are exactly the resources of the inventory. */
  ghost predicate ProjectsInventory(db: InventoryDb, node: NodeId, inv: Inventory) {
    && Projects(db.cpuPackages, node, inv.cpuPackages)
    && Projects(db.memoryModules, node, inv.memoryModules)
    && Projects(db.blockDevices, node, inv.blockDevices)
    && Projects(db.filesystems, node, inv.filesystems)
    && ProjectsNet(db.net, node, inv.networkInterfaces)
    && Projects(db.gpus, node, inv.gpus)
  }

  ghost predicate KeysDistinct(inv: Inventory) {
    && DistinctKeys(inv.cpuPackages) && DistinctKeys(inv.memoryModules) && DistinctKeys(inv.blockDevices)
    && DistinctKeys(inv.filesystems) && DistinctKeys(inv.networkInterfaces) && DistinctKeys(inv.gpus)
  }

  ghost function SyncInventory(db: InventoryDb, node: NodeId, inv: Inventory, at: Instant): InventoryDb
    requires WfInventory(db)
  {
    InventoryDb(
      Sync(db.cpuPackages, node, inv.cpuPackages, at),
      Sync(db.memoryModules, node, inv.memoryModules, at),
      Sync(db.blockDevices, node, inv.blockDevices, at),
      Sync(db.filesystems, node, inv.filesystems, at),
      SyncNetwork(db.net, node, inv.networkInterfaces, at),
      Sync(db.gpus, node, inv.gpus, at))
  }

  method SyncAllTables(db: InventoryDb, node: NodeId, inv: Inventory, at: Instant) returns (r: InventoryDb)
    requires WfInventory(db)
    ensures r == SyncInventory(db, node, inv, at)
  {
    var cpuPackages := SyncTable(db.cpuPackages, node, inv.cpuPackages, at);
    var memoryModules := SyncTable(db.memoryModules, node, inv.memoryModules, at);
    var blockDevices := SyncTable(db.blockDevices, node, inv.blockDevices, at);
    var filesystems := SyncTable(db.filesystems, node, inv.filesystems, at);
    var net := SyncNetworkInterfaces(db.net, node, inv.networkInterfaces, at);
    var gpus := SyncTable(db.gpus, node, inv.gpus, at);
    r := InventoryDb(cpuPackages, memoryModules, blockDevices, filesystems, net, gpus);
  }

  // ---- history ----

  ghost predicate ExtendsInventory(a: InventoryDb, b: InventoryDb) {
    && Extends(a.cpuPackages, b.cpuPackages) && Extends(a.memoryModules, b.memoryModules)
    && Extends(a.blockDevices, b.blockDevices) && Extends(a.filesystems, b.filesystems)
    && Extends(a.net.nics, b.net.nics) && Extends(a.net.addresses, b.net.addresses)
    && Extends(a.gpus, b.gpus)
  }

  lemma ExtendsInventoryReflexive(a: InventoryDb)
    ensures ExtendsInventory(a, a)
  {}

  lemma ExtendsInventoryTransitive(a: InventoryDb, b: InventoryDb, c: InventoryDb)
    requires ExtendsInventory(a, b) && ExtendsInventory(b, c)
    ensures ExtendsInventory(a, c)
  {
    ExtendsTransitive(a.cpuPackages, b.cpuPackages, c.cpuPackages);
    ExtendsTransitive(a.memoryModules, b.memoryModules, c.memoryModules);
    ExtendsTransitive(a.blockDevices, b.blockDevices, c.blockDevices);
    ExtendsTransitive(a.filesystems, b.filesystems, c.filesystems);
    ExtendsTransitive(a.net.nics, b.net.nics, c.net.nics);
    ExtendsTransitive(a.net.addresses, b.net.addresses, c.net.addresses);
    ExtendsTransitive(a.gpus, b.gpus, c.gpus);
  }

  /** A sync of all tables keeps the invariants and the history. */
  lemma SyncInventoryRows(db: InventoryDb, node: NodeId, inv: Inventory, at: Instant)
    requires WfInventory(db)
    ensures WfInventory(SyncInventory(db, node, inv, at))
    ensures ExtendsInventory(db, SyncInventory(db, node, inv, at))
  {
    hide Active, Sync, SyncNetwork, Extends, Wf, NoOrphans;
    SyncExtends(db.cpuPackages, node, inv.cpuPackages, at);
    SyncExtends(db.memoryModules, node, inv.memoryModules, at);
    SyncExtends(db.blockDevices, node, inv.blockDevices, at);
    SyncExtends(db.filesystems, node, inv.filesystems, at);
    SyncExtends(db.gpus, node, inv.gpus, at);
    SyncNetworkRows(db.net, node, inv.networkInterfaces, at);
  }

  /** The active rows become the reported inventory. */
  lemma SyncInventoryProjects(db: InventoryDb, node: NodeId, inv: Inventory, at: Instant)
    requires WfInventory(db) && KeysDistinct(inv)
    ensures ProjectsInventory(SyncInventory(db, node, inv, at), node, inv)
  {
    hide Active, Sync, SyncNetwork, Extends, Wf, NoOrphans;
    SyncView(db.cpuPackages, node, inv.cpuPackages, at);
    SyncView(db.memoryModules, node, inv.memoryModules, at);
    SyncView(db.blockDevices, node, inv.blockDevices, at);
    SyncView(db.filesystems, node, inv.filesystems, at);
    SyncView(db.gpus, node, inv.gpus, at);
    SyncNetworkProjects(db.net, node, inv.networkInterfaces, at);
  }

  /** What another node's rows project is not disturbed. */
  lemma SyncInventoryOthers(db: InventoryDb, node: NodeId, inv: Inventory, at: Instant, other: NodeId, theirs: Inventory)
    requires WfInventory(db) && KeysDistinct(inv) && other != node && ProjectsInventory(db, other, theirs)
    ensures ProjectsInventory(SyncInventory(db, node, inv, at), other, theirs)
  {
    hide Active, Sync, SyncNetwork, Extends, Wf, NoOrphans;
    SyncView(db.cpuPackages, node, inv.cpuPackages, at);
    SyncView(db.memoryModules, node, inv.memoryModules, at);
    SyncView(db.blockDevices, node, inv.blockDevices, at);
    SyncView(db.filesystems, node, inv.filesystems, at);
    SyncView(db.gpus, node, inv.gpus, at);
    SyncNetworkOthers(db.net, node, inv.networkInterfaces, at, other, theirs.networkInterfaces);
  }

  // ---- CHECK constraints ----

  ghost predicate InventoryChecked(db: InventoryDb) {
    && RowsChecked(db.cpuPackages) && RowsChecked(db.memoryModules) && RowsChecked(db.blockDevices)
    && RowsChecked(db.filesystems) && RowsChecked(db.net.nics) && RowsChecked(db.net.addresses)
    && RowsChecked(db.gpus)
  }

  /** No active row of the node was first seen after this instant. */
  ghost predicate SeenByThen(db: InventoryDb, node: NodeId, at: Instant) {
    && (forall id :: id in ActiveRowIds(db.cpuPackages, node) ==> db.cpuPackages.rows[id].firstSeen <= at)
    && (forall id :: id in ActiveRowIds(db.memoryModules, node) ==> db.memoryModules.rows[id].firstSeen <= at)
    && (forall id :: id in ActiveRowIds(db.blockDevices, node) ==> db.blockDevices.rows[id].firstSeen <= at)
    && (forall id :: id in ActiveRowIds(db.filesystems, node) ==> db.filesystems.rows[id].firstSeen <= at)
    && (forall id :: id in ActiveRowIds(db.net.nics, node) ==> db.net.nics.rows[id].firstSeen <= at)
    && (forall id :: id in NodeAddressIds(db.net.addresses, node) ==> db.net.addresses.rows[id].firstSeen <= at)
    && (forall id :: id in ActiveRowIds(db.gpus, node) ==> db.gpus.rows[id].firstSeen <= at)
  }

  /** PostgreSQL accepts a sync exactly when no active row of the node was first seen after its receive time. */
  lemma SyncInventoryCheckedIff(db: InventoryDb, node: NodeId, inv: Inventory, at: Instant)
    requires WfInventory(db) && KeysDistinct(inv) && InventoryChecked(db)
    ensures InventoryChecked(SyncInventory(db, node, inv, at)) <==> SeenByThen(db, node, at)
  {
    hide Active, Sync, SyncNetwork, Stamped, RowsChecked, Wf, NoOrphans, ActiveRowIds, NodeAddressIds;
    var r := SyncInventory(db, node, inv, at);
    SyncStamped(db.cpuPackages, node, inv.cpuPackages, at);
    StampedCheckedIff(db.cpuPackages, r.cpuPackages, ActiveRowIds(db.cpuPackages, node), at);
    SyncStamped(db.memoryModules, node, inv.memoryModules, at);
    StampedCheckedIff(db.memoryModules, r.memoryModules, ActiveRowIds(db.memoryModules, node), at);
    SyncStamped(db.blockDevices, node, inv.blockDevices, at);
    StampedCheckedIff(db.blockDevices, r.blockDevices, ActiveRowIds(db.blockDevices, node), at);
    SyncStamped(db.filesystems, node, inv.filesystems, at);
    StampedCheckedIff(db.filesystems, r.filesystems, ActiveRowIds(db.filesystems, node), at);
    SyncStamped(db.gpus, node, inv.gpus, at);
    StampedCheckedIff(db.gpus, r.gpus, ActiveRowIds(db.gpus, node), at);
    SyncNetworkStamped(db.net, node, inv.networkInterfaces, at);
    StampedCheckedIff(db.net.nics, r.net.nics, ActiveRowIds(db.net.nics, node), at);
    StampedCheckedIff(db.net.addresses, r.net.addresses, NodeAddressIds(db.net.addresses, node), at);
  }

  // ---- equality up to last-seen times ----

  ghost predicate InventorySameButLastSeen(a: InventoryDb, b: InventoryDb) {
    && SameButLastSeen(a.cpuPackages, b.cpuPackages) && SameButLastSeen(a.memoryModules, b.memoryModules)
    && SameButLastSeen(a.blockDevices, b.blockDevices) && SameButLastSeen(a.filesystems, b.filesystems)
    && NetSameButLastSeen(a.net, b.net) && SameButLastSeen(a.gpus, b.gpus)
  }

  lemma InventorySameTransitive(a: InventoryDb, b: InventoryDb, c: InventoryDb)
    requires InventorySameButLastSeen(a, b) && InventorySameButLastSeen(b, c)
    ensures InventorySameButLastSeen(a, c)
  {
    hide SameButLastSeen;
    SameButLastSeenTransitive(a.cpuPackages, b.cpuPackages, c.cpuPackages);
    SameButLastSeenTransitive(a.memoryModules, b.memoryModules, c.memoryModules);
    SameButLastSeenTransitive(a.blockDevices, b.blockDevices, c.blockDevices);
    SameButLastSeenTransitive(a.filesystems, b.filesystems, c.filesystems);
    SameButLastSeenTransitive(a.net.nics, b.net.nics, c.net.nics);
    SameButLastSeenTransitive(a.net.addresses, b.net.addresses, c.net.addresses);
    SameButLastSeenTransitive(a.gpus, b.gpus, c.gpus);
  }

  /** The two databases have the same active rows, with the same ids, and stay so under the same sync. */
  lemma InventorySyncAlike(a: InventoryDb, b: InventoryDb, node: NodeId, inv: Inventory, at: Instant)
    requires InventorySameButLastSeen(a, b) && WfInventory(a) && WfInventory(b)
    ensures InventorySameButLastSeen(SyncInventory(a, node, inv, at), SyncInventory(b, node, inv, at))
  {
    hide Active, Sync, SyncNetwork, SameButLastSeen, Wf, NoOrphans;
    SyncAlike(a.cpuPackages, b.cpuPackages, node, inv.cpuPackages, at);
    SyncAlike(a.memoryModules, b.memoryModules, node, inv.memoryModules, at);
    SyncAlike(a.blockDevices, b.blockDevices, node, inv.blockDevices, at);
    SyncAlike(a.filesystems, b.filesystems, node, inv.filesystems, at);
    SyncNetworkAlike(a.net, b.net, node, inv.networkInterfaces, at);
    SyncAlike(a.gpus, b.gpus, node, inv.gpus, at);
  }

  /** Syncing the inventory the active rows already project changes nothing but last-seen times. */
  lemma SyncInventoryOfProjected(db: InventoryDb, node: NodeId, inv: Inventory, at: Instant)
    requires WfInventory(db) && KeysDistinct(inv) && ProjectsInventory(db, node, inv)
    ensures InventorySameButLastSeen(db, SyncInventory(db, node, inv, at))
  {
    hide Active, Sync, SyncNetwork, SameButLastSeen, Wf, NoOrphans, Projects, ProjectsNet;
    SyncOfProjected(db.cpuPackages, node, inv.cpuPackages, at);
    SyncOfProjected(db.memoryModules, node, inv.memoryModules, at);
    SyncOfProjected(db.blockDevices, node, inv.blockDevices, at);
    SyncOfProjected(db.filesystems, node, inv.filesystems, at);
    SyncNetworkOfProjected(db.net, node, inv.networkInterfaces, at);
    SyncOfProjected(db.gpus, node, inv.gpus, at);
  }
}
