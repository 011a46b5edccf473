/** The raw history query over the tables as they are after a run (internal/store/query.go:789-837). */
module HistoryWindows {
  import opened Text
  import opened Clock
  import opened Reports
  import opened Inventories
  import opened InventoryTables
  import opened NetworkTables
  import opened InventoryDatabase
  import opened Samples
  import opened Rollups
  import opened Partitions
  import opened Database
  import opened Ingestion
  import opened Runs
  import H = HistoryQueries

  predicate InWindow(m: Minute, start: Instant) { Minutes(m) >= start }

  /** A scan lists each row of the table that the query asks for once, in any order. */
  ghost predicate Scan<K, V>(keys: seq<K>, table: map<K, V>, wanted: K -> bool) {
    && H.Distinct(keys)
    && (forall k :: k in keys ==> k in table && wanted(k))
    && (forall k :: k in table && wanted(k) ==> k in keys)
  }

  function MainWanted(node: NodeId, start: Instant): MinuteKey -> bool {
    (k: MinuteKey) => k.node == node && InWindow(k.minute, start)
  }

  function DetailWanted(node: NodeId, start: Instant): DetailKey -> bool {
    (k: DetailKey) => k.node == node && InWindow(k.minute, start)
  }

  // ---- rows of the query ----

  function MainRow(m: Minute, s: MainSample): H.MainRow {
    H.MainRow(m, s.cpu.usagePercent, Percent(s.memory.usedBytes, s.memory.totalBytes), s.disk.readBytesDelta, s.disk.writeBytesDelta,
              s.intervalSeconds)
  }

  function MainRows(keys: seq<MinuteKey>, table: map<MinuteKey, MainSample>): (rows: seq<H.MainRow>)
    requires forall i :: 0 <= i < |keys| ==> keys[i] in table
    ensures |rows| == |keys|
  {
    seq(|keys|, i requires 0 <= i < |keys| => MainRow(keys[i].minute, table[keys[i]]))
  }

  function NetworkRows(keys: seq<DetailKey>, table: map<DetailKey, NetworkMetrics>): (rows: seq<H.NetworkRow>)
    requires forall i :: 0 <= i < |keys| ==> keys[i] in table
    ensures |rows| == |keys|
  {
    seq(|keys|, i requires 0 <= i < |keys| =>
      H.NetworkRow(keys[i].minute, table[keys[i]].rxBytesDelta, table[keys[i]].txBytesDelta))
  }

  /** The device rows the join condition pairs a sample with: the id is a primary key, so one or none. */
  function Partners(t: Table<NodeId, Filesystem>, k: DetailKey): seq<Filesystem> {
    if k.resource in t.rows && t.rows[k.resource].owner == k.node then [t.rows[k.resource].attrs] else []
  }

  function JoinedRow(k: DetailKey, s: FilesystemSample, f: Filesystem): H.FilesystemRow {
    H.FilesystemRow(k.minute, Percent(s.usedBytes, s.totalBytes), "ro" in f.mountOptions)
  }

  /** The inner join of samples and devices. */
  function FilesystemRows(keys: seq<DetailKey>, table: map<DetailKey, FilesystemSample>, t: Table<NodeId, Filesystem>): seq<H.FilesystemRow>
    requires forall i :: 0 <= i < |keys| ==> keys[i] in table
  {
    if keys == [] then []
    else
      var n := |keys| - 1;
      var partners := Partners(t, keys[n]);
      FilesystemRows(keys[..n], table, t) + if partners == [] then [] else [JoinedRow(keys[n], table[keys[n]], partners[0])]
  }

  /** Because of the foreign key the join loses no sample. */
  lemma {:induction false} JoinLosesNothing(keys: seq<DetailKey>, table: map<DetailKey, FilesystemSample>, t: Table<NodeId, Filesystem>)
    requires forall i :: 0 <= i < |keys| ==> keys[i] in table && Owned(t, keys[i].node, keys[i].resource)
    ensures var rows := FilesystemRows(keys, table, t);
      && |rows| == |keys|
      && forall i :: 0 <= i < |keys| ==>
           keys[i].resource in t.rows && rows[i] == JoinedRow(keys[i], table[keys[i]], t.rows[keys[i].resource].attrs)
  {
    if keys != [] {
      var n := |keys| - 1;
      JoinLosesNothing(keys[..n], table, t);
      assert forall i :: 0 <= i < n ==> keys[..n][i] == keys[i];
      assert Owned(t, keys[n].node, keys[n].resource);
    }
  }

  // ---- what the query may rely on ----

  /** Scans of the three tables for one node and window. */
  datatype Scans = Scans(main: seq<MinuteKey>, filesystems: seq<DetailKey>, network: seq<DetailKey>)

  ghost predicate ScansOf(db: Db, node: NodeId, start: Instant, s: Scans) {
    && Scan(s.main, db.history.samples.main, MainWanted(node, start))
    && Scan(s.filesystems, db.history.samples.filesystems, DetailWanted(node, start))
    && Scan(s.network, db.history.samples.network, DetailWanted(node, start))
  }

  lemma ScanIsStored<K, V>(keys: seq<K>, table: map<K, V>, wanted: K -> bool)
    requires Scan(keys, table, wanted)
    ensures forall i :: 0 <= i < |keys| ==> keys[i] in table && wanted(keys[i])
  {
    assert forall i :: 0 <= i < |keys| ==> keys[i] in keys;
  }

  /** Every scanned key is in its table. */
  ghost predicate Stored(db: Db, s: Scans) {
    && (forall i :: 0 <= i < |s.main| ==> s.main[i] in db.history.samples.main)
    && (forall i :: 0 <= i < |s.filesystems| ==> s.filesystems[i] in db.history.samples.filesystems)
    && (forall i :: 0 <= i < |s.network| ==> s.network[i] in db.history.samples.network)
  }

  lemma ScansAreStored(db: Db, node: NodeId, start: Instant, s: Scans)
    requires ScansOf(db, node, start, s)
    ensures Stored(db, s)
  {
    ScanIsStored(s.main, db.history.samples.main, MainWanted(node, start));
    ScanIsStored(s.filesystems, db.history.samples.filesystems, DetailWanted(node, start));
    ScanIsStored(s.network, db.history.samples.network, DetailWanted(node, start));
  }

  ghost function TablesOf(db: Db, s: Scans): H.Tables
    requires Stored(db, s)
  {
    H.Tables(
      MainRows(s.main, db.history.samples.main),
      FilesystemRows(s.filesystems, db.history.samples.filesystems, db.inventory.filesystems),
      NetworkRows(s.network, db.history.samples.network))
  }

  /** The primary key gives one main row per minute. */
  lemma OneRowPerMinute(keys: seq<MinuteKey>, table: map<MinuteKey, MainSample>, node: NodeId, start: Instant)
    requires Scan(keys, table, MainWanted(node, start))
    requires forall i :: 0 <= i < |keys| ==> keys[i] in table
    ensures H.Distinct(H.MinutesOf(MainRows(keys, table)))
    ensures forall m :: InWindow(m, start) && MinuteKey(m, node) in table ==> m in H.MinutesOf(MainRows(keys, table))
  {
    ScanIsStored(keys, table, MainWanted(node, start));
    var minutes := H.MinutesOf(MainRows(keys, table));
    forall i, j | 0 <= i < j < |keys| ensures minutes[i] != minutes[j] {
      assert keys[i] != keys[j];
    }
    forall m | InWindow(m, start) && MinuteKey(m, node) in table ensures m in minutes {
      assert MinuteKey(m, node) in keys;
      var i :| 0 <= i < |keys| && keys[i] == MinuteKey(m, node);
      assert minutes[i] == m;
    }
  }

  /** The foreign key gives every network row of the window its main row in the window. */
  lemma NetworkHasMinute(db: Db, node: NodeId, start: Instant, s: Scans)
    requires ScansOf(db, node, start, s) && DetailsHaveMain(db.history.samples)
    requires forall i :: 0 <= i < |s.main| ==> s.main[i] in db.history.samples.main
    requires forall i :: 0 <= i < |s.network| ==> s.network[i] in db.history.samples.network
    ensures var main, network := MainRows(s.main, db.history.samples.main), NetworkRows(s.network, db.history.samples.network);
      forall i :: 0 <= i < |network| ==> network[i].minute in H.MinutesOf(main)
  {
    var samples := db.history.samples;
    ScanIsStored(s.network, samples.network, DetailWanted(node, start));
    OneRowPerMinute(s.main, samples.main, node, start);
    forall i | 0 <= i < |s.network| ensures s.network[i].minute in H.MinutesOf(MainRows(s.main, samples.main)) {
      assert MinuteKey(s.network[i].minute, s.network[i].node) in samples.main;
    }
  }

  lemma InvariantsForQuery(db: Db, digest: Digest)
    requires WfDb(db, digest)
    ensures DetailsHaveMain(db.history.samples)
    ensures forall k :: k in db.history.samples.main ==> db.history.samples.main[k].intervalSeconds > 0
    ensures forall k :: k in db.history.samples.filesystems ==> Owned(db.inventory.filesystems, k.node, k.resource)
  {
    hide WfInventory, InventoryChecked, FingerprintsTrue, RowsPartitioned, DaysWhole, CurrentAgrees, Owned;
  }

  /** A column of a table added up over the scanned keys. */
  function StoredTotal<K, V>(keys: seq<K>, table: map<K, V>, column: V -> nat): nat
    requires forall i :: 0 <= i < |keys| ==> keys[i] in table
  {
    if keys == [] then 0 else StoredTotal(keys[..|keys| - 1], table, column) + column(table[keys[|keys| - 1]])
  }

  /** Each rate times the seconds of its bucket adds up to the bytes stored for the window, column by column. */
  ghost predicate AnswerIsRight(db: Db, s: Scans, points: seq<H.MinutePoint>)
    requires Stored(db, s)
  {
    var main, network := db.history.samples.main, db.history.samples.network;
    && H.Conserves(points, H.PointRx, StoredTotal(s.network, network, (n: NetworkMetrics) => n.rxBytesDelta))
    && H.Conserves(points, H.PointTx, StoredTotal(s.network, network, (n: NetworkMetrics) => n.txBytesDelta))
    && H.Conserves(points, H.PointRead, StoredTotal(s.main, main, (m: MainSample) => m.disk.readBytesDelta))
    && H.Conserves(points, H.PointWritten, StoredTotal(s.main, main, (m: MainSample) => m.disk.writeBytesDelta))
  }

  lemma {:induction false} NetworkTotals(keys: seq<DetailKey>, table: map<DetailKey, NetworkMetrics>)
    requires forall i :: 0 <= i < |keys| ==> keys[i] in table
    ensures H.Total(NetworkRows(keys, table), H.Rx) == StoredTotal(keys, table, (n: NetworkMetrics) => n.rxBytesDelta)
    ensures H.Total(NetworkRows(keys, table), H.Tx) == StoredTotal(keys, table, (n: NetworkMetrics) => n.txBytesDelta)
  {
    if keys != [] {
      var n := |keys| - 1;
      NetworkTotals(keys[..n], table);
      assert NetworkRows(keys, table)[..n] == NetworkRows(keys[..n], table);
    }
  }

  lemma {:induction false} MainTotals(keys: seq<MinuteKey>, table: map<MinuteKey, MainSample>)
    requires forall i :: 0 <= i < |keys| ==> keys[i] in table
    ensures H.Total(MainRows(keys, table), H.Read) == StoredTotal(keys, table, (m: MainSample) => m.disk.readBytesDelta)
    ensures H.Total(MainRows(keys, table), H.Written) == StoredTotal(keys, table, (m: MainSample) => m.disk.writeBytesDelta)
  {
    if keys != [] {
      var n := |keys| - 1;
      MainTotals(keys[..n], table);
      assert MainRows(keys, table)[..n] == MainRows(keys[..n], table);
    }
  }

  /**
   * After every run, for every node and window and however the tables are scanned: the query means the same as
   * scanning each sample's minute, the filesystem join loses no sample, and each of the four rates times the seconds
   * of its bucket adds up to the column's total over all stored samples of the window.
   */
  lemma QueryAfterRun(digest: Digest, run: seq<Step>, node: NodeId, start: Instant, k: nat, s: Scans,
                      disks: seq<H.Grouped<real>>, nets: seq<H.Grouped<H.Traffic>>)
    requires GoodDigest(digest) && k > 0 && ScansOf(State(digest, run), node, start, s)
    ensures Stored(State(digest, run), s)
    ensures var t := TablesOf(State(digest, run), s);
      H.Lists(disks, H.GroupBy(H.Writable(t.filesystems), H.FilesystemMinute, H.Used, H.Fuller))
      && H.Lists(nets, H.GroupBy(t.network, H.NetworkMinute, H.TrafficOf, H.MoreTraffic)) ==>
        && H.Joined(t, k, disks, nets) == H.Direct(t, k)
        && |t.filesystems| == |s.filesystems| && AnswerIsRight(State(digest, run), s, H.Joined(t, k, disks, nets))
  {
    hide State, WfDb, WfInventory, DetailsHaveMain, Owned;
    var db := State(digest, run);
    var samples := db.history.samples;
    InvariantsForQuery(db, digest);
    ScansAreStored(db, node, start, s);
    OneRowPerMinute(s.main, samples.main, node, start);
    NetworkHasMinute(db, node, start, s);
    JoinLosesNothing(s.filesystems, samples.filesystems, db.inventory.filesystems);
    var t := TablesOf(db, s);
    assert forall i :: 0 <= i < |t.main| ==> t.main[i].seconds > 0;
    hide ScansOf, Scan;
    if H.Lists(disks, H.GroupBy(H.Writable(t.filesystems), H.FilesystemMinute, H.Used, H.Fuller))
       && H.Lists(nets, H.GroupBy(t.network, H.NetworkMinute, H.TrafficOf, H.MoreTraffic)) {
      hide H.Lists, H.GroupBy, H.Writable, H.Joined, H.Direct, H.Conserves, H.Total, FilesystemRows, NetworkRows;
      H.PreAggregationIsDirect(t, k, disks, nets);
      H.WindowConserved(t, k, disks, nets);
      NetworkTotals(s.network, samples.network);
      MainTotals(s.main, samples.main);
    }
  }

  // ---- what each point of the answer reads ----

  /** A filesystem sample of the minute whose device is not mounted read-only. */
  ghost predicate Counts(db: Db, node: NodeId, m: Minute, id: Id) {
    && DetailKey(m, node, id) in db.history.samples.filesystems && id in db.inventory.filesystems.rows
    && "ro" !in db.inventory.filesystems.rows[id].attrs.mountOptions
  }

  ghost function UsageOf(db: Db, node: NodeId, m: Minute, id: Id): real
    requires Counts(db, node, m, id)
  {
    var s := db.history.samples.filesystems[DetailKey(m, node, id)];
    if s.totalBytes == 0 then 0.0 else 100.0 * (s.usedBytes as real) / (s.totalBytes as real)
  }

  /** The greatest usage of those filesystems, or zero when there is none. */
  ghost predicate DiskReads(db: Db, node: NodeId, m: Minute, disk: real) {
    && ((forall id :: !Counts(db, node, m, id)) ==> disk == 0.0)
    && (forall id :: Counts(db, node, m, id) ==> UsageOf(db, node, m, id) <= disk)
    && ((exists id :: Counts(db, node, m, id)) ==> exists id :: Counts(db, node, m, id) && UsageOf(db, node, m, id) == disk)
  }

  /** The point shows its own stored sample, column by column. */
  ghost predicate PointReads(db: Db, node: NodeId, m: Minute, p: H.MinutePoint) {
    && MinuteKey(m, node) in db.history.samples.main
    && var s := db.history.samples.main[MinuteKey(m, node)];
    && p.cpu == s.cpu.usagePercent && p.seconds == s.intervalSeconds
    && p.memory == (if s.memory.totalBytes == 0 then 0.0 else 100.0 * (s.memory.usedBytes as real) / (s.memory.totalBytes as real))
    && p.read == s.disk.readBytesDelta && p.written == s.disk.writeBytesDelta
    && DiskReads(db, node, m, p.disk)
  }

  lemma DiskUsageReads(db: Db, node: NodeId, start: Instant, keys: seq<DetailKey>, rows: seq<H.FilesystemRow>, m: Minute, disk: real)
    requires Scan(keys, db.history.samples.filesystems, DetailWanted(node, start)) && InWindow(m, start)
    requires |rows| == |keys| && forall i :: 0 <= i < |keys| ==>
               && keys[i] in db.history.samples.filesystems && keys[i].resource in db.inventory.filesystems.rows
               && rows[i] == JoinedRow(keys[i], db.history.samples.filesystems[keys[i]], db.inventory.filesystems.rows[keys[i].resource].attrs)
    requires H.IsDiskUsage(disk, rows, m)
    ensures DiskReads(db, node, m, disk)
  {
    ScanIsStored(keys, db.history.samples.filesystems, DetailWanted(node, start));
    forall id | Counts(db, node, m, id) ensures exists i: nat :: H.WritableAt(rows, m, i) && keys[i].resource == id && rows[i].usedPercent == UsageOf(db, node, m, id) {
      assert DetailKey(m, node, id) in keys;
      var i :| 0 <= i < |keys| && keys[i] == DetailKey(m, node, id);
      assert H.WritableAt(rows, m, i);
    }
    forall i: nat | H.WritableAt(rows, m, i)
      ensures Counts(db, node, m, keys[i].resource) && UsageOf(db, node, m, keys[i].resource) == rows[i].usedPercent
    {
      assert keys[i] == DetailKey(m, node, keys[i].resource);
    }
  }

  lemma PointReadsSample(db: Db, node: NodeId, start: Instant, k: nat, s: Scans, i: nat)
    requires k > 0 && ScansOf(db, node, start, s) && Stored(db, s) && i < |s.main|
    requires forall k :: k in db.history.samples.filesystems ==> Owned(db.inventory.filesystems, k.node, k.resource)
    ensures var points := H.Direct(TablesOf(db, s), k);
      && |points| == |s.main| && points[i].bucket == H.HourRelative(s.main[i].minute, k)
      && PointReads(db, node, s.main[i].minute, points[i])
  {
    hide H.Direct, H.IsDiskUsage, FilesystemRows, DiskReads, H.HourRelative, H.Total, H.RowsAt, NetworkRows;
    var t := TablesOf(db, s);
    JoinLosesNothing(s.filesystems, db.history.samples.filesystems, db.inventory.filesystems);
    H.PointsSay(t, k);
    var p := H.Direct(t, k)[i];
    assert H.PointSays(p, t, i, k);
    assert t.main[i] == MainRow(s.main[i].minute, db.history.samples.main[s.main[i]]);
    MainKeyIs(db, node, start, s, i);
    DiskUsageReads(db, node, start, s.filesystems, t.filesystems, s.main[i].minute, p.disk);
    hide H.PointSays;
  }

  lemma MainKeyIs(db: Db, node: NodeId, start: Instant, s: Scans, i: nat)
    requires ScansOf(db, node, start, s) && i < |s.main|
    ensures s.main[i] == MinuteKey(s.main[i].minute, node) && InWindow(s.main[i].minute, start)
  {
    ScanIsStored(s.main, db.history.samples.main, MainWanted(node, start));
  }

  /** After every run each point of the answer reads the sample of its minute as it is stored. */
  lemma PointsAfterRun(digest: Digest, run: seq<Step>, node: NodeId, start: Instant, k: nat, s: Scans, i: nat)
    requires GoodDigest(digest) && k > 0 && ScansOf(State(digest, run), node, start, s) && i < |s.main|
    ensures Stored(State(digest, run), s)
    ensures var points := H.Direct(TablesOf(State(digest, run), s), k);
      && |points| == |s.main| && points[i].bucket == H.HourRelative(s.main[i].minute, k)
      && PointReads(State(digest, run), node, s.main[i].minute, points[i])
  {
    hide State, WfDb, WfInventory, DetailsHaveMain, Owned, PointReads, H.Direct, TablesOf, H.HourRelative, ScansOf, Stored;
    InvariantsForQuery(State(digest, run), digest);
    ScansAreStored(State(digest, run), node, start, s);
    PointReadsSample(State(digest, run), node, start, k, s, i);
  }
}
