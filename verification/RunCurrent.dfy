/** The current row of a node and its health snapshots over every run. */
module RunCurrent {
  import opened Text
  import opened Clock
  import opened Reports
  import opened Inventories
  import opened InventoryTables
  import opened NetworkTables
  import opened InventoryDatabase
  import opened Samples
  import opened Snapshots
  import opened Rollups
  import opened Partitions
  import opened Database
  import opened Ingestion
  import opened Acceptance
  import opened Runs

  // ---- the node row ----

  /** The node's committed main samples, in the order of commit. */
  ghost function Arrivals(digest: Digest, run: seq<Step>, node: NodeId): seq<Arrival<MainSample>>
    requires GoodDigest(digest)
  {
    if run == [] then []
    else
      var n := |run| - 1;
      Arrivals(digest, run[..n], node)
      + if run[n].Post? && run[n].node == node && Accepted(State(digest, run[..n]), digest, run[n])
        then [Arrival(BucketOf(run[n].report), MainOf(run[n].report, run[n].receivedAt))] else []
  }

  ghost predicate RowIs<K, C>(current: map<K, Latest<C>>, k: K, row: Option<Latest<C>>) {
    if row.None? then k !in current else k in current && current[k] == row.value
  }

  lemma NodeRowStep(db: Db, digest: Digest, s: Step, node: NodeId)
    requires WfDb(db, digest) && GoodDigest(digest) && WfInventory(db.inventory)
    ensures var after := Apply(db, digest, s).current.nodes;
      if s.Post? && s.node == node && Accepted(db, digest, s)
      then after == TouchLatest(db.current.nodes, node, BucketOf(s.report), MainOf(s.report, s.receivedAt))
      else forall row :: RowIs(db.current.nodes, node, row) ==> RowIs(after, node, row)
  {
    hide WfDb, WfInventory, RowsFailure, HealthFailure, WithSamples, WithHealth, Refreshed, Viewed, RowsOf, ActiveSetsOf, Ingest,
      SyncedInventory, InventoryChecked, ExtendsInventory, ProjectsInventory, Validated, Resolved, Cycled, Seen;
    if Accepted(db, digest, s) {
      AcceptedFacts(db, digest, s);
      assert MainOf(AsReceived(s.report), s.receivedAt) == MainOf(s.report, s.receivedAt);
      assert BucketOf(AsReceived(s.report)) == BucketOf(s.report);
    } else {
      assert Apply(db, digest, s).current == db.current;
    }
  }

  /** The current row of a node is what replaying its committed samples leaves. */
  lemma {:induction false} NodeRowIsReplay(digest: Digest, run: seq<Step>, node: NodeId)
    requires GoodDigest(digest)
    ensures RowIs(State(digest, run).current.nodes, node, Replay(Arrivals(digest, run, node)))
  {
    hide WfDb, WfInventory, Apply, Accepted;
    if run != [] {
      var n := |run| - 1;
      NodeRowIsReplay(digest, run[..n], node);
      var db, s := State(digest, run[..n]), run[n];
      assert State(digest, run) == Apply(db, digest, s);
      var before, arrivals := Arrivals(digest, run[..n], node), Arrivals(digest, run, node);
      hide State;
      NodeRowStep(db, digest, s, node);
      if s.Post? && s.node == node && Accepted(db, digest, s) {
        assert arrivals == before + [Arrival(BucketOf(s.report), MainOf(s.report, s.receivedAt))];
        assert arrivals[..|before|] == before;
      } else {
        assert arrivals == before;
      }
    }
  }

  /**
   * Two runs that commit the same reports of a node, for distinct minutes, leave it the same current row, in
   * whatever order the reports arrive and whatever else happens.
   */
  lemma OrderOfReportsIrrelevant(digest: Digest, a: seq<Step>, b: seq<Step>, node: NodeId, row: Option<Latest<MainSample>>)
    requires GoodDigest(digest)
    requires multiset(Arrivals(digest, a, node)) == multiset(Arrivals(digest, b, node))
    requires var h := Arrivals(digest, a, node); forall i, j :: 0 <= i < j < |h| ==> h[i].minute != h[j].minute
    ensures RowIs(State(digest, a).current.nodes, node, row) <==> RowIs(State(digest, b).current.nodes, node, row)
  {
    hide State, Arrivals, WfDb, WfInventory, Replay;
    NodeRowIsReplay(digest, a, node);
    NodeRowIsReplay(digest, b, node);
    ArrivalOrderIrrelevant(Arrivals(digest, a, node), Arrivals(digest, b, node));
  }

  // ---- health snapshots ----

  lemma AcceptedHealthResolves(db: Db, digest: Digest, s: Step)
    requires WfDb(db, digest) && GoodDigest(digest) && WfInventory(db.inventory) && Accepted(db, digest, s)
    ensures WfInventory(Apply(db, digest, s).inventory)
    ensures HealthResolved(ActiveSetsOf(Apply(db, digest, s).inventory, s.node), AsReceived(s.report))
  {
    hide Apply, Accepted, WfDb, ProjectsInventory, ExtendsInventory, WfInventory, Normalize, ValidInventory, ActiveSetsOf, RowsFailure,
      HealthFailure, WithSamples, WithCurrent, WithHealth, ContributionOf, SyncedInventory, Resolved;
    AcceptedFacts(db, digest, s);
    AcceptedIsValid(db, digest, s);
    hide IsStep;
    var inv := Apply(db, digest, s).inventory;
    ValidKeysDistinct(s.report.inventory);
    ProjectedIdsMatch(inv, s.node, s.report.inventory);
    var ids := ActiveSetsOf(inv, s.node);
    ReferencesResolve(s.report.metrics.storageHealth, s.report.inventory.blockDevices, ids.blockDevices);
  }

  /** The temperature and storage-health lists of the node's committed reports, resolved to rows. */
  datatype HealthReports = HealthReports(
    temperatures: seq<Snapshot<string, Temperature>>, storage: seq<Snapshot<Id, StorageHealth>>)

  ghost function HealthHistory(digest: Digest, run: seq<Step>, node: NodeId): HealthReports
    requires GoodDigest(digest)
  {
    if run == [] then HealthReports([], [])
    else
      var n := |run| - 1;
      var before := HealthHistory(digest, run[..n], node);
      if run[n].Post? && run[n].node == node && Accepted(State(digest, run[..n]), digest, run[n]) then
        AcceptedHealthResolves(State(digest, run[..n]), digest, run[n]);
        var ids := ActiveSetsOf(State(digest, run).inventory, node);
        var r := AsReceived(run[n].report);
        HealthReports(before.temperatures + [TemperatureSnapshot(r, run[n].receivedAt)],
                      before.storage + [StorageSnapshot(ids, r, run[n].receivedAt)])
      else before
  }

  lemma HealthStep(db: Db, digest: Digest, s: Step, node: NodeId)
    requires WfDb(db, digest) && GoodDigest(digest) && WfInventory(db.inventory)
    requires s.Post? && s.node == node && Accepted(db, digest, s)
    ensures var after := Apply(db, digest, s);
      && WfInventory(after.inventory)
      && var ids := ActiveSetsOf(after.inventory, node);
      && HealthResolved(ids, AsReceived(s.report))
      && after.health.temperatures == Replaced(db.health.temperatures, node, TemperatureSnapshot(AsReceived(s.report), s.receivedAt))
      && after.health.storage == Replaced(db.health.storage, node, StorageSnapshot(ids, AsReceived(s.report), s.receivedAt))
  {
    hide WfInventory, Installed, ActiveSetsOf, SnapshotRows, HealthResolved, WfDb, RowsFailure;
    AcceptedFacts(db, digest, s);
    AcceptedHealthResolves(db, digest, s);
  }

  lemma OtherHealth(db: Db, digest: Digest, s: Step, node: NodeId)
    requires WfDb(db, digest) && GoodDigest(digest) && WfInventory(db.inventory)
    requires !(s.Post? && s.node == node && Accepted(db, digest, s))
    ensures RowsOfNode(Apply(db, digest, s).health.temperatures, node) == RowsOfNode(db.health.temperatures, node)
    ensures RowsOfNode(Apply(db, digest, s).health.storage, node) == RowsOfNode(db.health.storage, node)
  {
    if Accepted(db, digest, s) {
      HealthStep(db, digest, s, s.node);
      hide RowsOfNode, Replaced, Apply, Accepted, WfInventory, WfDb, ActiveSetsOf, HealthResolved;
      var r := AsReceived(s.report);
      ReplacedIsNext(db.health.temperatures, s.node, TemperatureSnapshot(r, s.receivedAt));
      ReplacedIsNext(db.health.storage, s.node, StorageSnapshot(ActiveSetsOf(Apply(db, digest, s).inventory, s.node), r, s.receivedAt));
    } else {
      assert Apply(db, digest, s).health == db.health;
    }
  }

  /** The health rows of a node are what replaying its committed lists leaves. */
  lemma {:induction false} HealthIsReplay(digest: Digest, run: seq<Step>, node: NodeId)
    requires GoodDigest(digest)
    ensures RowsOfNode(State(digest, run).health.temperatures, node) == ReplaySnapshots(HealthHistory(digest, run, node).temperatures)
    ensures RowsOfNode(State(digest, run).health.storage, node) == ReplaySnapshots(HealthHistory(digest, run, node).storage)
  {
    hide WfDb, WfInventory, Apply, Accepted, RowsOfNode, Next, ActiveSetsOf, HealthResolved, SnapshotRows;
    if run != [] {
      var n := |run| - 1;
      HealthIsReplay(digest, run[..n], node);
      var db, s := State(digest, run[..n]), run[n];
      assert State(digest, run) == Apply(db, digest, s);
      var before, now := HealthHistory(digest, run[..n], node), HealthHistory(digest, run, node);
      if s.Post? && s.node == node && Accepted(db, digest, s) {
        HealthStep(db, digest, s, node);
        var r := AsReceived(s.report);
        var t, h := TemperatureSnapshot(r, s.receivedAt), StorageSnapshot(ActiveSetsOf(Apply(db, digest, s).inventory, node), r, s.receivedAt);
        assert now == HealthReports(before.temperatures + [t], before.storage + [h]);
        hide State, HealthHistory, Replaced, TemperatureSnapshot, StorageSnapshot;
        ReplayOneMore(before.temperatures, t);
        ReplayOneMore(before.storage, h);
        ReplacedIsNext(db.health.temperatures, node, t);
        ReplacedIsNext(db.health.storage, node, h);
      } else {
        assert now == before;
        hide State, HealthHistory, ReplaySnapshots;
        OtherHealth(db, digest, s, node);
      }
    } else {
      assert State(digest, run) == EmptyDb();
      hide State;
      NoHealthYet(node);
    }
  }

  lemma NoHealthYet(node: NodeId)
    ensures RowsOfNode(EmptyDb().health.temperatures, node) == map[] && RowsOfNode(EmptyDb().health.storage, node) == map[]
  {}

  lemma ReplayOneMore<K, V>(h: seq<Snapshot<K, V>>, s: Snapshot<K, V>)
    ensures ReplaySnapshots(h + [s]) == Next(ReplaySnapshots(h), s)
  {
    assert (h + [s])[..|h|] == h;
  }

  /** The last report for the greatest minute has rows, or no report that outlived the later ones has. */
  ghost predicate ShowsLatest<K, V>(h: seq<Snapshot<K, V>>, i: nat)
    requires i < |h|
  {
    h[i].rows != map[] || forall j :: 0 <= j < |h| && IsRecord(h, j) ==> h[j].rows == map[]
  }

  /** The rows are one report's whole list, and the latest report's exactly when `ShowsLatest`. */
  ghost predicate OneReport<K, V>(rows: map<K, SnapshotRow<V>>, h: seq<Snapshot<K, V>>) {
    && (rows == map[] || exists i :: 0 <= i < |h| && rows == Filled(h[i]))
    && (forall i: nat :: IsLatest(h, i) ==> (rows == Filled(h[i]) <==> ShowsLatest(h, i)))
  }

  lemma ReplayIsOneReport<K, V>(h: seq<Snapshot<K, V>>)
    ensures OneReport(ReplaySnapshots(h), h)
  {
    SnapshotIsWhole(h);
    hide ReplaySnapshots, Filled;
    forall i: nat | IsLatest(h, i) ensures ReplaySnapshots(h) == Filled(h[i]) <==> ShowsLatest(h, i) {
      LatestShownIff(h, i);
    }
  }

  /**
   * After every run the temperature rows of a node are exactly the list of one committed report, and so are its
   * storage-health rows; with no empty list among the reports, of the last one committed for the greatest minute.
   */
  lemma HealthIsOneReport(digest: Digest, run: seq<Step>, node: NodeId)
    requires GoodDigest(digest)
    ensures var db, h := State(digest, run).health, HealthHistory(digest, run, node);
      OneReport(RowsOfNode(db.temperatures, node), h.temperatures) && OneReport(RowsOfNode(db.storage, node), h.storage)
  {
    hide State, HealthHistory, RowsOfNode, WfDb, WfInventory, ReplaySnapshots, OneReport;
    HealthIsReplay(digest, run, node);
    ReplayIsOneReport(HealthHistory(digest, run, node).temperatures);
    ReplayIsOneReport(HealthHistory(digest, run, node).storage);
  }

  // ---- the minute shown never falls ----

  ghost function TemperatureRows(digest: Digest, run: seq<Step>, node: NodeId): map<string, SnapshotRow<Temperature>>
    requires GoodDigest(digest)
  {
    RowsOfNode(State(digest, run).health.temperatures, node)
  }

  ghost function StorageRows(digest: Digest, run: seq<Step>, node: NodeId): map<Id, SnapshotRow<StorageHealth>>
    requires GoodDigest(digest)
  {
    RowsOfNode(State(digest, run).health.storage, node)
  }

  /** The minute a step reports for. */
  function MinuteOfStep(s: Step): Minute {
    if s.Post? then BucketOf(s.report) else 0
  }

  lemma StepIsForward(db: Db, digest: Digest, s: Step, node: NodeId)
    requires WfDb(db, digest) && GoodDigest(digest) && WfInventory(db.inventory)
    ensures var after := Apply(db, digest, s).health;
      && Forward(RowsOfNode(db.health.temperatures, node), RowsOfNode(after.temperatures, node), MinuteOfStep(s))
      && Forward(RowsOfNode(db.health.storage, node), RowsOfNode(after.storage, node), MinuteOfStep(s))
  {
    hide WfDb, WfInventory, Apply, RowsOfNode, Replaced, Next, Forward, ActiveSetsOf, HealthResolved, SnapshotRows;
    var before, after := db.health, Apply(db, digest, s).health;
    if s.Post? && s.node == node && Accepted(db, digest, s) {
      HealthStep(db, digest, s, node);
      var r := AsReceived(s.report);
      var t, h := TemperatureSnapshot(r, s.receivedAt), StorageSnapshot(ActiveSetsOf(Apply(db, digest, s).inventory, node), r, s.receivedAt);
      ReplacedIsNext(before.temperatures, node, t);
      NextIsForward(RowsOfNode(before.temperatures, node), t);
      ReplacedIsNext(before.storage, node, h);
      NextIsForward(RowsOfNode(before.storage, node), h);
    } else {
      hide Accepted;
      OtherHealth(db, digest, s, node);
      UnchangedIsForward(RowsOfNode(before.temperatures, node), MinuteOfStep(s));
      UnchangedIsForward(RowsOfNode(before.storage, node), MinuteOfStep(s));
    }
  }

  lemma UnchangedIsForward<K, V>(rows: map<K, SnapshotRow<V>>, minute: Minute)
    ensures Forward(rows, rows, minute)
  {}

  lemma OneReportOneMinute<K, V>(rows: map<K, SnapshotRow<V>>, h: seq<Snapshot<K, V>>)
    requires OneReport(rows, h)
    ensures OneMinute(rows)
  {}

  /**
   * At every step of every run the health rows of a node change only by an accepted report of that node, and only to
   * that report's minute, which none of the rows it replaces is later than.
   */
  lemma HealthMovesForward(digest: Digest, run: seq<Step>, n: nat, node: NodeId)
    requires GoodDigest(digest) && n < |run|
    ensures Forward(TemperatureRows(digest, run[..n], node), TemperatureRows(digest, run[..n + 1], node), MinuteOfStep(run[n]))
    ensures Forward(StorageRows(digest, run[..n], node), StorageRows(digest, run[..n + 1], node), MinuteOfStep(run[n]))
    ensures !(run[n].Post? && run[n].node == node && Accepted(State(digest, run[..n]), digest, run[n])) ==>
              && TemperatureRows(digest, run[..n + 1], node) == TemperatureRows(digest, run[..n], node)
              && StorageRows(digest, run[..n + 1], node) == StorageRows(digest, run[..n], node)
  {
    hide State, WfDb, WfInventory, Apply, Accepted, RowsOfNode, Forward;
    StateStep(digest, run, n);
    var db := State(digest, run[..n]);
    StepIsForward(db, digest, run[n], node);
    if !(run[n].Post? && run[n].node == node && Accepted(db, digest, run[n])) {
      OtherHealth(db, digest, run[n], node);
    }
  }

  /** Over every stretch of a run during which a node has rows, no later state shows an earlier minute. */
  lemma ShownMinuteNeverFalls(digest: Digest, run: seq<Step>, node: NodeId, i: nat, j: nat)
    requires GoodDigest(digest) && i <= j <= |run|
    ensures (forall n :: i <= n <= j ==> TemperatureRows(digest, run[..n], node) != map[]) ==>
              NoEarlier(TemperatureRows(digest, run[..i], node), TemperatureRows(digest, run[..j], node))
    ensures (forall n :: i <= n <= j ==> StorageRows(digest, run[..n], node) != map[]) ==>
              NoEarlier(StorageRows(digest, run[..i], node), StorageRows(digest, run[..j], node))
  {
    hide State, HealthHistory, WfDb, WfInventory, TemperatureRows, StorageRows, NoEarlier, OneMinute, OneReport;
    if forall n :: i <= n <= j ==> TemperatureRows(digest, run[..n], node) != map[] {
      TemperaturesNeverFall(digest, run, node, i, j);
    }
    if forall n :: i <= n <= j ==> StorageRows(digest, run[..n], node) != map[] {
      StorageNeverFalls(digest, run, node, i, j);
    }
  }

  lemma TemperaturesNeverFall(digest: Digest, run: seq<Step>, node: NodeId, i: nat, j: nat)
    requires GoodDigest(digest) && i <= j <= |run|
    requires forall n :: i <= n <= j ==> TemperatureRows(digest, run[..n], node) != map[]
    ensures NoEarlier(TemperatureRows(digest, run[..i], node), TemperatureRows(digest, run[..j], node))
  {
    hide State, HealthHistory, WfDb, WfInventory, TemperatureRows, StorageRows, NoEarlier, Forward, OneMinute, OneReport, MinuteOfStep, Accepted;
    OneMinuteAt(digest, run[..i], node);
    var rows := seq(|run| + 1, n requires 0 <= n <= |run| => TemperatureRows(digest, run[..n], node));
    var minutes := seq(|run|, n requires 0 <= n < |run| => MinuteOfStep(run[n]));
    forall n | 0 <= n < |run| ensures Forward(rows[n], rows[n + 1], minutes[n]) {
      HealthMovesForward(digest, run, n, node);
    }
    MinuteNeverFalls(rows, minutes, i, j);
  }

  lemma StorageNeverFalls(digest: Digest, run: seq<Step>, node: NodeId, i: nat, j: nat)
    requires GoodDigest(digest) && i <= j <= |run|
    requires forall n :: i <= n <= j ==> StorageRows(digest, run[..n], node) != map[]
    ensures NoEarlier(StorageRows(digest, run[..i], node), StorageRows(digest, run[..j], node))
  {
    hide State, HealthHistory, WfDb, WfInventory, TemperatureRows, StorageRows, NoEarlier, Forward, OneMinute, OneReport, MinuteOfStep, Accepted;
    OneMinuteAt(digest, run[..i], node);
    var rows := seq(|run| + 1, n requires 0 <= n <= |run| => StorageRows(digest, run[..n], node));
    var minutes := seq(|run|, n requires 0 <= n < |run| => MinuteOfStep(run[n]));
    forall n | 0 <= n < |run| ensures Forward(rows[n], rows[n + 1], minutes[n]) {
      HealthMovesForward(digest, run, n, node);
    }
    MinuteNeverFalls(rows, minutes, i, j);
  }

  lemma OneMinuteAt(digest: Digest, run: seq<Step>, node: NodeId)
    requires GoodDigest(digest)
    ensures OneMinute(TemperatureRows(digest, run, node)) && OneMinute(StorageRows(digest, run, node))
  {
    hide State, HealthHistory, WfDb, WfInventory, RowsOfNode, OneReport, OneMinute;
    HealthIsOneReport(digest, run, node);
    var db, h := State(digest, run).health, HealthHistory(digest, run, node);
    OneReportOneMinute(RowsOfNode(db.temperatures, node), h.temperatures);
    OneReportOneMinute(RowsOfNode(db.storage, node), h.storage);
  }
}
