/** A report sent twice: the second commit changes nothing but receive times. */
module Resends {
  import opened Text
  import opened Clock
  import opened Reports
  import opened Inventories
  import opened InventoryTables
  import opened NetworkTables
  import opened InventoryDatabase
  import opened Samples
  import opened Snapshots
  import opened Rollups
  import opened Partitions
  import opened Database
  import opened Ingestion
  import opened Acceptance
  import opened Runs

  ghost predicate MainSame(a: map<MinuteKey, MainSample>, b: map<MinuteKey, MainSample>) {
    a.Keys == b.Keys && forall k :: k in a ==> b[k] == a[k].(receivedAt := b[k].receivedAt)
  }

  ghost predicate NodeRowsSame(a: map<NodeId, Latest<MainSample>>, b: map<NodeId, Latest<MainSample>>) {
    a.Keys == b.Keys && forall n :: n in a ==> b[n] == Latest(a[n].minute, a[n].value.(receivedAt := b[n].value.receivedAt))
  }

  ghost predicate GpuRowsSame(a: map<ResourceKey, Latest<GpuCurrent>>, b: map<ResourceKey, Latest<GpuCurrent>>) {
    a.Keys == b.Keys && forall k :: k in a ==> b[k] == Latest(a[k].minute, a[k].value.(receivedAt := b[k].value.receivedAt))
  }

  ghost predicate SnapshotSame<K, V>(a: SnapshotTable<K, V>, b: SnapshotTable<K, V>) {
    a.Keys == b.Keys && forall k :: k in a ==> b[k] == a[k].(receivedAt := b[k].receivedAt)
  }

  ghost predicate NodesSame(a: map<NodeId, Node>, b: map<NodeId, Node>) {
    a.Keys == b.Keys && forall n :: n in a ==> b[n] == a[n].(lastSeen := b[n].lastSeen, token := a[n].token.(lastUsed := b[n].token.lastUsed))
  }

  /** Equal tables, except for when nodes were last seen, tokens last used and samples received. */
  ghost predicate SameButReceived(a: Db, b: Db) {
    && NodesSame(a.nodes, b.nodes)
    && b.inventory == a.inventory
    && b.history == a.history.(samples := a.history.samples.(main := b.history.samples.main))
    && MainSame(a.history.samples.main, b.history.samples.main)
    && NodeRowsSame(a.current.nodes, b.current.nodes)
    && b.current.filesystems == a.current.filesystems && b.current.network == a.current.network
    && GpuRowsSame(a.current.gpus, b.current.gpus)
    && SnapshotSame(a.health.temperatures, b.health.temperatures) && SnapshotSame(a.health.storage, b.health.storage)
  }

  lemma PlacedTwice<S>(table: map<DetailKey, S>, minute: Minute, node: NodeId, rows: map<Id, S>)
    ensures Placed(Placed(table, minute, node, rows), minute, node, rows) == Placed(table, minute, node, rows)
  {
    hide Placed;
    var once := Placed(table, minute, node, rows);
    var twice := Placed(once, minute, node, rows);
    forall k ensures (k in once <==> k in twice) && (k in once ==> once[k] == twice[k]) {
      PlacedAt(table, minute, node, rows, k);
      PlacedAt(once, minute, node, rows, k);
    }
    SameMap(once, twice);
  }

  lemma RefreshedTwice<C>(current: map<ResourceKey, Latest<C>>, minute: Minute, node: NodeId, rows: map<Id, C>)
    ensures Refreshed(Refreshed(current, minute, node, rows), minute, node, rows) == Refreshed(current, minute, node, rows)
  {
    hide Refreshed;
    var once := Refreshed(current, minute, node, rows);
    var twice := Refreshed(once, minute, node, rows);
    forall k ensures (k in once <==> k in twice) && (k in once ==> once[k] == twice[k]) {
      RefreshedAt(current, minute, node, rows, k);
      RefreshedAt(once, minute, node, rows, k);
    }
    SameMap(once, twice);
  }

  lemma GpusTwice(current: map<ResourceKey, Latest<GpuCurrent>>, minute: Minute, node: NodeId, rows: map<Id, GpuSample>,
                  first: MainSample, second: MainSample)
    requires second == first.(receivedAt := second.receivedAt)
    ensures var once := Refreshed(current, minute, node, Viewed(WithTimes(first), rows));
      GpuRowsSame(once, Refreshed(once, minute, node, Viewed(WithTimes(second), rows)))
  {
    hide Refreshed, Viewed;
    var a, b := Viewed(WithTimes(first), rows), Viewed(WithTimes(second), rows);
    ViewedIs(WithTimes(first), rows);
    ViewedIs(WithTimes(second), rows);
    var once := Refreshed(current, minute, node, a);
    var twice := Refreshed(once, minute, node, b);
    forall k
      ensures k in once <==> k in twice
      ensures k in once ==> twice[k] == Latest(once[k].minute, once[k].value.(receivedAt := twice[k].value.receivedAt))
    {
      RefreshedAt(current, minute, node, a, k);
      RefreshedAt(once, minute, node, b, k);
    }
  }

  lemma NetworkViewSame(rows: map<Id, NetworkMetrics>, first: MainSample, second: MainSample)
    requires second == first.(receivedAt := second.receivedAt)
    ensures Viewed(WithInterval(first), rows) == Viewed(WithInterval(second), rows)
  {}

  lemma InstalledAt<K, V>(table: SnapshotTable<K, V>, node: NodeId, s: Snapshot<K, V>, k: SnapshotKey<K>)
    ensures var t := Installed(table, node, Filled(s));
      if k.node == node
      then (k in t <==> k.part in s.rows) && (k in t ==> t[k] == SnapshotRow(s.minute, s.collectedAt, s.receivedAt, s.rows[k.part]))
      else (k in t <==> k in table) && (k in t ==> t[k] == table[k])
  {}

  lemma SnapshotSameAt<K, V>(a: SnapshotTable<K, V>, b: SnapshotTable<K, V>)
    requires forall k :: k in a ==> k in b && b[k] == a[k].(receivedAt := b[k].receivedAt)
    requires forall k :: k in b ==> k in a
    ensures SnapshotSame(a, b)
  {
    assert a.Keys == b.Keys;
  }

  lemma SnapshotTwice<K, V>(table: SnapshotTable<K, V>, node: NodeId, first: Snapshot<K, V>, second: Snapshot<K, V>)
    requires second == first.(receivedAt := second.receivedAt)
    ensures var once := Replaced(table, node, first);
      && (CanBeReplaced(table, node, first.minute) <==> CanBeReplaced(once, node, first.minute))
      && SnapshotSame(once, Replaced(once, node, second))
  {
    hide Installed, Filled;
    var once := Replaced(table, node, first);
    var twice := Replaced(once, node, second);
    if CanBeReplaced(table, node, first.minute) {
      forall k | k in once && k.node == node ensures once[k].minute == first.minute {
        InstalledAt(table, node, first, k);
      }
      forall k | k in once ensures k in twice && twice[k] == once[k].(receivedAt := twice[k].receivedAt) {
        InstalledAt(table, node, first, k);
        InstalledAt(once, node, second, k);
      }
      forall k | k in twice ensures k in once {
        InstalledAt(table, node, first, k);
        InstalledAt(once, node, second, k);
      }
      SnapshotSameAt(once, twice);
    }
  }

  lemma SamplesTwice(s: SampleDb, minute: Minute, node: NodeId, c: Contribution, d: Contribution)
    requires d == c.(main := d.main) && d.main == c.main.(receivedAt := d.main.receivedAt)
    ensures var once := WithSamples(s, minute, node, c);
      var twice := WithSamples(once, minute, node, d);
      twice == once.(main := twice.main) && MainSame(once.main, twice.main)
  {
    hide Placed;
    PlacedTwice(s.filesystems, minute, node, c.filesystems);
    PlacedTwice(s.network, minute, node, c.network);
    PlacedTwice(s.gpus, minute, node, c.gpus);
  }

  lemma CurrentTwice(s: CurrentDb, minute: Minute, node: NodeId, c: Contribution, d: Contribution)
    requires d == c.(main := d.main) && d.main == c.main.(receivedAt := d.main.receivedAt)
    ensures var once := WithCurrent(s, minute, node, c);
      var twice := WithCurrent(once, minute, node, d);
      && NodeRowsSame(once.nodes, twice.nodes) && twice.filesystems == once.filesystems && twice.network == once.network
      && GpuRowsSame(once.gpus, twice.gpus)
  {
    hide Refreshed, Viewed, GpuRowsSame;
    RefreshedTwice(s.filesystems, minute, node, Viewed(SameSample, c.filesystems));
    RefreshedTwice(s.network, minute, node, Viewed(WithInterval(c.main), c.network));
    NetworkViewSame(c.network, c.main, d.main);
    GpusTwice(s.gpus, minute, node, c.gpus, c.main, d.main);
  }

  lemma HealthTwice(h: HealthDb, node: NodeId, ids: ActiveSets, r: Report, first: Instant, second: Instant)
    requires HealthFailure(ids, h, node, r).None?
    ensures var once := WithHealth(h, node, ids, r, first);
      && HealthFailure(ids, once, node, r).None?
      && SnapshotSame(once.temperatures, WithHealth(once, node, ids, r, second).temperatures)
      && SnapshotSame(once.storage, WithHealth(once, node, ids, r, second).storage)
  {
    hide CanBeReplaced, Replaced, FirstUnstorable, SnapshotRows, SnapshotSame;
    SnapshotTwice(h.temperatures, node, TemperatureSnapshot(r, first), TemperatureSnapshot(r, second));
    if CanBeReplaced(h.storage, node, BucketOf(r)) {
      SnapshotTwice(h.storage, node, StorageSnapshot(ids, r, first), StorageSnapshot(ids, r, second));
    } else {
      SnapshotSameReflexive(h.storage);
    }
  }

  lemma SnapshotSameReflexive<K, V>(t: SnapshotTable<K, V>)
    ensures SnapshotSame(t, t)
  {}

  lemma RowsStillPass(ids: ActiveSets, db: Db, after: Db, node: NodeId, r: Report, first: Instant, second: Instant)
    requires RowsFailure(ids, db, node, r, first).None?
    requires after.history.partitions == db.history.partitions && HealthFailure(ids, after.health, node, r).None?
    ensures RowsFailure(ids, after, node, r, second).None?
  {
    hide HealthFailure, FirstFailure, DayReady;
    assert MainChecked(MainOf(r, first)) == MainChecked(MainOf(r, second));
  }

  /** Sending a committed report again, at any receive time its node row admits, commits and changes only times. */
  lemma ResendChangesOnlyTimes(db: Db, once: Db, node: NodeId, r: Report, first: Instant, second: Instant)
    requires WfInventory(db.inventory) && WfInventory(once.inventory)
    requires IsStep(db, once, node, r, first) && Admits(db.nodes[node], second)
    ensures var outcome := Ingest(once, node, r, second);
      outcome.Committed? && SameButReceived(once, outcome.db)
  {
    hide WfInventory, InventoryChecked, WithSamples, WithCurrent, WithHealth, ContributionOf, ActiveSetsOf, RowsFailure, HealthFailure,
      Resolved, MainSame, NodeRowsSame, GpuRowsSame, SnapshotSame, SyncInventory, Ingest;
    var ids := ActiveSetsOf(once.inventory, node);
    var c, d := ContributionOf(ids, r, first), ContributionOf(ids, r, second);
    SameRowsLater(ids, r, first, second);
    HealthTwice(db.health, node, ids, r, first, second);
    RowsStillPass(ids, db, once, node, r, first, second);
    assert SyncedInventory(once, node, r, second) == once.inventory;
    assert InventoryChecked(once.inventory) && node in once.nodes && Admits(once.nodes[node], second);
    var samples, current := db.history.samples, db.current;
    assert once.history.samples == WithSamples(samples, BucketOf(r), node, c) && once.current == WithCurrent(current, BucketOf(r), node, c);
    hide IsStep, SyncedInventory;
    SamplesTwice(samples, BucketOf(r), node, c, d);
    CurrentTwice(current, BucketOf(r), node, c, d);
    SecondCommits(once, node, r, second, c, d);
  }

  lemma SameRowsLater(ids: ActiveSets, r: Report, first: Instant, second: Instant)
    requires Resolved(ids, r)
    ensures var c, d := ContributionOf(ids, r, first), ContributionOf(ids, r, second);
      d == c.(main := d.main) && d.main == c.main.(receivedAt := d.main.receivedAt)
  {
    hide RowsOf;
  }

  lemma SecondCommits(once: Db, node: NodeId, r: Report, second: Instant, c: Contribution, d: Contribution)
    requires WfInventory(once.inventory) && InventoryChecked(once.inventory)
    requires node in once.nodes && Admits(once.nodes[node], second)
    requires SyncedInventory(once, node, r, second) == once.inventory
    requires var ids := ActiveSetsOf(once.inventory, node);
      && RowsFailure(ids, once, node, r, second).None? && Resolved(ids, r) && HealthFailure(ids, once.health, node, r).None?
      && d == ContributionOf(ids, r, second)
    ensures var outcome := Ingest(once, node, r, second);
      outcome == Committed(Db(
        once.nodes[node := Seen(once.nodes[node], r, second)],
        once.inventory,
        once.history.(samples := WithSamples(once.history.samples, BucketOf(r), node, d)),
        WithCurrent(once.current, BucketOf(r), node, d),
        WithHealth(once.health, node, ActiveSetsOf(once.inventory, node), r, second)))
  {
    hide WfInventory, InventoryChecked, WithSamples, WithCurrent, WithHealth, ContributionOf, ActiveSetsOf, RowsFailure, HealthFailure,
      Resolved, SyncedInventory, Seen;
  }

  lemma RetryOf(db: Db, digest: Digest, s: Step, t: Step)
    requires WfDb(db, digest) && GoodDigest(digest) && WfInventory(db.inventory) && Accepted(db, digest, s)
    requires t.Post? && t.node == s.node && t.report == s.report && InTimeWindow(s.report.collectedAt, t.at)
    requires Admits(db.nodes[s.node], t.receivedAt)
    ensures var once := Apply(db, digest, s);
      WfInventory(once.inventory) && SameButReceived(once, Apply(once, digest, t))
  {
    AcceptedFacts(db, digest, s);
    assert Validated(t.report, digest, t.at) by {
      hide ValidInventory, ValidMetrics, Fingerprint, Ingest, WfInventory, WfDb, IsStep;
    }
    hide WfDb, WfInventory, SameButReceived, Validated, Ingest, ProjectsInventory, ExtendsInventory, Normalize;
    var once := Apply(db, digest, s);
    ResendChangesOnlyTimes(db, once, s.node, AsReceived(s.report), s.receivedAt, t.receivedAt);
  }

  /** An agent that retries a report the service has already committed changes nothing but receive times. */
  lemma RetryIsHarmless(digest: Digest, run: seq<Step>, node: NodeId, report: Report, at: Instant, receivedAt: Instant,
                        again: Instant, receivedAgain: Instant)
    requires GoodDigest(digest)
    requires Accepted(State(digest, run), digest, Post(node, report, at, receivedAt))
    requires InTimeWindow(report.collectedAt, again)
    requires Admits(State(digest, run).nodes[node], receivedAgain)
    ensures var sent := run + [Post(node, report, at, receivedAt)];
      SameButReceived(State(digest, sent), State(digest, sent + [Post(node, report, again, receivedAgain)]))
  {
    hide WfDb, WfInventory, SameButReceived, Apply, Accepted;
    var s, t := Post(node, report, at, receivedAt), Post(node, report, again, receivedAgain);
    var sent := run + [s];
    assert sent[..|run|] == run && (sent + [t])[..|sent|] == sent;
    RetryOf(State(digest, run), digest, s, t);
  }
}
