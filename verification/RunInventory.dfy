/** The inventory tables over every run. */
module RunInventory {
  import opened Text
  import opened Clock
  import opened Reports
  import opened Inventories
  import opened InventoryTables
  import opened NetworkTables
  import opened NetworkFacts
  import opened InventoryDatabase
  import opened ShownInventory
  import opened Samples
  import opened Rollups
  import opened Partitions
  import opened Database
  import opened Ingestion
  import opened Acceptance
  import opened Runs

  // ---- history ----

  lemma ApplyExtends(db: Db, digest: Digest, s: Step)
    requires WfDb(db, digest) && GoodDigest(digest)
    ensures ExtendsInventory(db.inventory, Apply(db, digest, s).inventory)
  {
    if Accepted(db, digest, s) {
      hide *;
      AcceptedFacts(db, digest, s);
    } else {
      assert Apply(db, digest, s).inventory == db.inventory;
      hide *;
      ExtendsInventoryReflexive(db.inventory);
    }
  }

  /**
   * No inventory row ever disappears or changes its owner, key or first-seen time; a removed row never changes
   * again; later rows have ids no earlier row had.
   */
  lemma {:induction false} HistoryIsKept(digest: Digest, run: seq<Step>, i: nat, j: nat)
    requires GoodDigest(digest) && i <= j <= |run|
    ensures ExtendsInventory(State(digest, run[..i]).inventory, State(digest, run[..j]).inventory)
    decreases j
  {
    hide ExtendsInventory, WfDb, Apply, State;
    if i == j {
      ExtendsInventoryReflexive(State(digest, run[..i]).inventory);
    } else {
      HistoryIsKept(digest, run, i, j - 1);
      StateStep(digest, run, j - 1);
      ApplyExtends(State(digest, run[..j - 1]), digest, run[j - 1]);
      ExtendsInventoryTransitive(State(digest, run[..i]).inventory, State(digest, run[..j - 1]).inventory, State(digest, run[..j]).inventory);
    }
  }

  /** A key that was removed and comes back gets a row with a new id. */
  lemma ReturningKeyGetsNewRow<T>(before: Table<NodeId, T>, later: Table<NodeId, T>, node: NodeId, key: string)
    requires Wf(before) && Wf(later) && Extends(before, later)
    requires key !in Active(before, node) && key in Active(later, node)
    ensures Active(later, node)[key].id !in before.rows
  {
    hide Active;
    ActiveAt(before, node);
    ActiveAt(later, node);
    var id := Active(later, node)[key].id;
    assert Backed(later, node, key, Active(later, node)[key]);
    assert id in before.rows ==> SameIdentity(before.rows[id], later.rows[id]);
  }

  // ---- the active rows show the last accepted report ----

  function NoInventory(): Inventory { Inventory([], [], [], [], [], []) }

  /** The inventory of the node's last committed report, as the agent sent it. */
  ghost function LastReported(digest: Digest, run: seq<Step>, node: NodeId): Inventory
    requires GoodDigest(digest)
  {
    if run == [] then NoInventory()
    else
      var n := |run| - 1;
      if run[n].Post? && run[n].node == node && Accepted(State(digest, run[..n]), digest, run[n]) then run[n].report.inventory
      else LastReported(digest, run[..n], node)
  }

  lemma NothingReported(node: NodeId)
    ensures ProjectsInventory(EmptyDb().inventory, node, Normalize(NoInventory())) && KeysDistinct(NoInventory())
  {}

  lemma ApplyShows(db: Db, digest: Digest, s: Step, node: NodeId, inv: Inventory)
    requires WfDb(db, digest) && GoodDigest(digest) && ProjectsInventory(db.inventory, node, inv)
    requires !(s.Post? && s.node == node && Accepted(db, digest, s))
    ensures ProjectsInventory(Apply(db, digest, s).inventory, node, inv)
  {
    if Accepted(db, digest, s) {
      hide SyncInventory, ProjectsInventory, WfInventory, ExtendsInventory, WithSamples, WithCurrent, WithHealth, RowsFailure, InventoryChecked;
      AcceptedFacts(db, digest, s);
      ValidatedIsSealed(s.report, digest, s.at);
      var r := AsReceived(s.report);
      if db.nodes[s.node].fingerprint != r.inventoryFingerprint {
        SyncInventoryOthers(db.inventory, s.node, r.inventory, s.receivedAt, node, inv);
      }
    } else {
      assert Apply(db, digest, s).inventory == db.inventory;
    }
  }

  /** After every run the active rows of each node project the normal form of its last committed report. */
  lemma {:induction false} ActiveRowsProject(digest: Digest, run: seq<Step>, node: NodeId)
    requires GoodDigest(digest)
    ensures ProjectsInventory(State(digest, run).inventory, node, Normalize(LastReported(digest, run, node)))
    ensures KeysDistinct(LastReported(digest, run, node))
  {
    hide ProjectsInventory, Apply, Accepted, WfInventory, InventoryChecked, FingerprintsTrue, WfHistory, DaysWhole, SamplesChecked,
      ResourcesExist, CurrentAgrees, NodesChecked, IsStep, Normalize, KeysDistinct;
    if run == [] {
      NothingReported(node);
    } else {
      var n := |run| - 1;
      var db, s := State(digest, run[..n]), run[n];
      assert State(digest, run) == Apply(db, digest, s);
      if s.Post? && s.node == node && Accepted(db, digest, s) {
        AcceptedFacts(db, digest, s);
        AcceptedKeysDistinct(db, digest, s);
      } else {
        ActiveRowsProject(digest, run[..n], node);
        ApplyShows(db, digest, s, node, Normalize(LastReported(digest, run[..n], node)));
      }
    }
  }

  lemma AcceptedKeysDistinct(db: Db, digest: Digest, s: Step)
    requires WfInventory(db.inventory) && Accepted(db, digest, s)
    ensures KeysDistinct(s.report.inventory)
  {
    hide WfInventory, Accepted, ValidInventory, ValidMetrics;
    AcceptedIsValid(db, digest, s);
    ValidKeysDistinct(s.report.inventory);
  }

  /**
   * After every run the active rows of each node show the inventory of its last committed report column by column,
   * one row for each resource and each inet value, although most reports are not synced.
   */
  lemma ActiveRowsShowLastReport(digest: Digest, run: seq<Step>, node: NodeId)
    requires GoodDigest(digest)
    ensures ShowsInventory(State(digest, run).inventory, node, LastReported(digest, run, node))
  {
    hide State, LastReported, WfDb, WfInventory, ProjectsInventory, Normalize, KeysDistinct, ShowsInventory;
    ActiveRowsProject(digest, run, node);
    ProjectedIsShown(State(digest, run).inventory, node, LastReported(digest, run, node));
  }
}
