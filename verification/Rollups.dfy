/** Hourly rollups: `rollup_hour` (db/migrations/V007__gpu_history_metrics.sql:257-433). Numbers are exact. */
module Rollups {
  import opened Text
  import opened Clock
  import opened Reports
  import opened InventoryTables
  import opened NetworkTables
  import opened Samples

  datatype MainSample = MainSample(
    collectedAt: Instant, receivedAt: Instant, intervalSeconds: int,
    cpu: CpuMetrics, memory: MemoryMetrics, disk: DiskMetrics)

  datatype FilesystemSample = FilesystemSample(
    totalBytes: nat, usedBytes: nat, availableBytes: nat, totalInodes: Option<nat>, usedInodes: Option<nat>)

  datatype GpuSample = GpuSample(utilizationPercent: real, memoryTotalBytes: nat, memoryUsedBytes: nat)

  /** The four raw tables. */
  datatype SampleDb = SampleDb(
    main: map<MinuteKey, MainSample>,
    filesystems: map<DetailKey, FilesystemSample>,
    network: map<DetailKey, NetworkMetrics>,
    gpus: map<DetailKey, GpuSample>)

  // ---- hourly rows ----

  datatype HourKey = HourKey(hour: Hour, node: NodeId)

  datatype HourDetail = HourDetail(hour: Hour, node: NodeId, resource: Id)

  datatype NodeHour = NodeHour(
    sampleCount: nat, cpuAvg: real, cpuMax: real, load1Avg: real, load1Max: real,
    memoryUsedAvg: int, memoryUsedMax: int, memoryUsageAvg: real, memoryUsageMax: real,
    diskReadBytes: int, diskWriteBytes: int,
    diskReadRateAvg: real, diskReadRateMax: real, diskWriteRateAvg: real, diskWriteRateMax: real)

  datatype FilesystemHour = FilesystemHour(sampleCount: nat, usageAvg: real, usageMax: real, usedBytesMax: int)

  datatype NetworkHour = NetworkHour(
    sampleCount: nat, rxBytes: int, txBytes: int,
    rxBitsAvg: real, rxBitsMax: real, txBitsAvg: real, txBitsMax: real)

  datatype GpuHour = GpuHour(
    sampleCount: nat, utilizationAvg: real, utilizationMax: real,
    memoryUsedAvg: int, memoryUsedMax: int, memoryUsageAvg: real, memoryUsageMax: real)

  datatype HourlyDb = HourlyDb(
    nodes: map<HourKey, NodeHour>,
    filesystems: map<HourDetail, FilesystemHour>,
    network: map<HourDetail, NetworkHour>,
    gpus: map<HourDetail, GpuHour>)

  // ---- aggregate functions ----

  function Sum<S>(f: S -> real, rows: seq<S>): real {
    if rows == [] then 0.0 else Sum(f, rows[..|rows| - 1]) + f(rows[|rows| - 1])
  }

  function Avg<S>(f: S -> real, rows: seq<S>): real {
    if rows == [] then 0.0 else Sum(f, rows) / (|rows| as real)
  }

  function Max<S>(f: S -> real, rows: seq<S>): (m: real)
    ensures forall i :: 0 <= i < |rows| ==> f(rows[i]) <= m
    ensures rows != [] ==> exists i :: 0 <= i < |rows| && f(rows[i]) == m
  {
    if rows == [] then 0.0
    else
      var n := |rows| - 1;
      if n == 0 then f(rows[0])
      else
        var earlier := Max(f, rows[..n]);
        assert forall i :: 0 <= i < n ==> rows[i] == rows[..n][i];
        if f(rows[n]) > earlier then f(rows[n]) else earlier
  }

  /** `round`, for the non-negative values it is used on. */
  function Round(x: real): int { (x + 0.5).Floor }

  function Percent(used: nat, total: nat): real {
    if total == 0 then 0.0 else used as real * 100.0 / (total as real)
  }

  function PerSecond(amount: nat, seconds: int): real {
    if seconds == 0 then 0.0 else amount as real / (seconds as real)
  }

  function AggregateNode(rows: seq<MainSample>): NodeHour {
    NodeHour(
      |rows|,
      Avg((s: MainSample) => s.cpu.usagePercent, rows), Max((s: MainSample) => s.cpu.usagePercent, rows),
      Avg((s: MainSample) => s.cpu.load1, rows), Max((s: MainSample) => s.cpu.load1, rows),
      Round(Avg((s: MainSample) => s.memory.usedBytes as real, rows)),
      Max((s: MainSample) => s.memory.usedBytes as real, rows).Floor,
      Avg((s: MainSample) => Percent(s.memory.usedBytes, s.memory.totalBytes), rows),
      Max((s: MainSample) => Percent(s.memory.usedBytes, s.memory.totalBytes), rows),
      Sum((s: MainSample) => s.disk.readBytesDelta as real, rows).Floor,
      Sum((s: MainSample) => s.disk.writeBytesDelta as real, rows).Floor,
      Avg((s: MainSample) => PerSecond(s.disk.readBytesDelta, s.intervalSeconds), rows),
      Max((s: MainSample) => PerSecond(s.disk.readBytesDelta, s.intervalSeconds), rows),
      Avg((s: MainSample) => PerSecond(s.disk.writeBytesDelta, s.intervalSeconds), rows),
      Max((s: MainSample) => PerSecond(s.disk.writeBytesDelta, s.intervalSeconds), rows))
  }

  function AggregateFilesystem(rows: seq<FilesystemSample>): FilesystemHour {
    FilesystemHour(
      |rows|,
      Avg((s: FilesystemSample) => Percent(s.usedBytes, s.totalBytes), rows),
      Max((s: FilesystemSample) => Percent(s.usedBytes, s.totalBytes), rows),
      Max((s: FilesystemSample) => s.usedBytes as real, rows).Floor)
  }

  /** A network sample joined to the main sample of its minute. */
  datatype Joined = Joined(sample: NetworkMetrics, intervalSeconds: int)

  function AggregateNetwork(rows: seq<Joined>): NetworkHour {
    NetworkHour(
      |rows|,
      Sum((j: Joined) => j.sample.rxBytesDelta as real, rows).Floor,
      Sum((j: Joined) => j.sample.txBytesDelta as real, rows).Floor,
      Avg((j: Joined) => PerSecond(j.sample.rxBytesDelta * 8, j.intervalSeconds), rows),
      Max((j: Joined) => PerSecond(j.sample.rxBytesDelta * 8, j.intervalSeconds), rows),
      Avg((j: Joined) => PerSecond(j.sample.txBytesDelta * 8, j.intervalSeconds), rows),
      Max((j: Joined) => PerSecond(j.sample.txBytesDelta * 8, j.intervalSeconds), rows))
  }

  function AggregateGpu(rows: seq<GpuSample>): GpuHour {
    GpuHour(
      |rows|,
      Avg((s: GpuSample) => s.utilizationPercent, rows), Max((s: GpuSample) => s.utilizationPercent, rows),
      Round(Avg((s: GpuSample) => s.memoryUsedBytes as real, rows)),
      Max((s: GpuSample) => s.memoryUsedBytes as real, rows).Floor,
      Avg((s: GpuSample) => Percent(s.memoryUsedBytes, s.memoryTotalBytes), rows),
      Max((s: GpuSample) => Percent(s.memoryUsedBytes, s.memoryTotalBytes), rows))
  }

  // ---- groups ----

  type Series<S> = Minute -> Option<S>

  function MainSeries(db: SampleDb, node: NodeId): Series<MainSample> {
    m => if MinuteKey(m, node) in db.main then Some(db.main[MinuteKey(m, node)]) else None
  }

  function DetailSeries<S>(table: map<DetailKey, S>, node: NodeId, resource: Id): Series<S> {
    m => if DetailKey(m, node, resource) in table then Some(table[DetailKey(m, node, resource)]) else None
  }

  function JoinedSeries(db: SampleDb, node: NodeId, resource: Id): Series<Joined> {
    m =>
      if DetailKey(m, node, resource) in db.network && MinuteKey(m, node) in db.main
      then Some(Joined(db.network[DetailKey(m, node, resource)], db.main[MinuteKey(m, node)].intervalSeconds))
      else None
  }

  function CollectFrom<S>(series: Series<S>, start: Minute, n: nat): seq<S> {
    if n == 0 then []
    else
      var row := series(start + n - 1);
      CollectFrom(series, start, n - 1) + if row.Some? then [row.value] else []
  }

  /** The rows of one group whose minute lies in the hour. */
  function Collect<S>(series: Series<S>, hour: Hour): seq<S> {
    CollectFrom(series, hour * 60, 60)
  }

  ghost predicate InHour(m: Minute, hour: Hour) {
    HourOfMinute(m) == hour
  }

  ghost predicate Occurs<S>(series: Series<S>, start: Minute, n: nat, x: S) {
    exists m :: start <= m < start + n && series(m) == Some(x)
  }

  lemma {:induction false} CollectFromIsGroup<S>(series: Series<S>, start: Minute, n: nat)
    ensures forall x :: x in CollectFrom(series, start, n) <==> Occurs(series, start, n, x)
  {
    if n > 0 {
      CollectFromIsGroup(series, start, n - 1);
      forall x ensures Occurs(series, start, n, x) <==> Occurs(series, start, n - 1, x) || series(start + n - 1) == Some(x) {
        if m :| start <= m < start + n && series(m) == Some(x) {
          assert m == start + n - 1 || Occurs(series, start, n - 1, x);
        }
      }
    }
  }

  ghost function MinutesWith<S>(series: Series<S>, start: Minute, n: nat, x: S): set<Minute> {
    set m | start <= m < start + n && series(m) == Some(x)
  }

  lemma OneMoreMinute<S>(series: Series<S>, start: Minute, n: nat, x: S)
    requires n > 0
    ensures |MinutesWith(series, start, n, x)|
            == |MinutesWith(series, start, n - 1, x)| + if series(start + n - 1) == Some(x) then 1 else 0
  {
    var last := start + n - 1;
    var before, now := MinutesWith(series, start, n - 1, x), MinutesWith(series, start, n, x);
    forall m ensures m in now <==> m in before || (m == last && series(m) == Some(x)) {}
    hide MinutesWith;
    assert now == before + if series(last) == Some(x) then {last} else {};
    assert last !in before;
  }

  lemma {:induction false} CollectFromMultiplicity<S>(series: Series<S>, start: Minute, n: nat, x: S)
    ensures multiset(CollectFrom(series, start, n))[x] == |MinutesWith(series, start, n, x)|
  {
    if n > 0 {
      CollectFromMultiplicity(series, start, n - 1, x);
      OneMoreMinute(series, start, n, x);
      hide MinutesWith;
    } else {
      assert MinutesWith(series, start, 0, x) == {};
    }
  }

  /** A group holds each row once for every minute of the hour that stores it, and no other row. */
  lemma CollectIsGroup<S>(series: Series<S>, hour: Hour, x: S)
    ensures multiset(Collect(series, hour))[x] == |MinutesWith(series, hour * 60, 60, x)|
    ensures x in Collect(series, hour) <==> exists m :: InHour(m, hour) && series(m) == Some(x)
  {
    CollectFromMultiplicity(series, hour * 60, 60, x);
    CollectFromIsGroup(series, hour * 60, 60);
    OccursInHour(series, hour, x);
    hide CollectFrom, Occurs;
  }

  lemma OccursInHour<S>(series: Series<S>, hour: Hour, x: S)
    ensures Occurs(series, hour * 60, 60, x) <==> exists m :: InHour(m, hour) && series(m) == Some(x)
  {
    if m :| InHour(m, hour) && series(m) == Some(x) {
      assert hour * 60 <= m < hour * 60 + 60;
    }
    if m :| hour * 60 <= m < hour * 60 + 60 && series(m) == Some(x) {
      assert InHour(m, hour);
    }
  }

  lemma {:induction false} CollectFromAgrees<S>(a: Series<S>, b: Series<S>, start: Minute, n: nat)
    requires forall m :: start <= m < start + n ==> a(m) == b(m)
    ensures CollectFrom(a, start, n) == CollectFrom(b, start, n)
  {
    if n > 0 {
      CollectFromAgrees(a, b, start, n - 1);
    }
  }

  lemma CollectAgrees<S>(a: Series<S>, b: Series<S>, hour: Hour)
    requires forall m :: InHour(m, hour) ==> a(m) == b(m)
    ensures Collect(a, hour) == Collect(b, hour)
  {
    forall m | hour * 60 <= m < hour * 60 + 60 ensures a(m) == b(m) {
      assert InHour(m, hour);
    }
    CollectFromAgrees(a, b, hour * 60, 60);
  }

  // ---- the statements ----

  function NodeGroups(db: SampleDb, hour: Hour): map<HourKey, NodeHour> {
    map g | g in (set k | k in db.main && HourOfMinute(k.minute) == hour :: HourKey(hour, k.node)) ::
      AggregateNode(Collect(MainSeries(db, g.node), hour))
  }

  function DetailKeys<S>(table: map<DetailKey, S>, hour: Hour): set<HourDetail> {
    set k | k in table && HourOfMinute(k.minute) == hour :: HourDetail(hour, k.node, k.resource)
  }

  function FilesystemGroups(db: SampleDb, hour: Hour): map<HourDetail, FilesystemHour> {
    map g | g in DetailKeys(db.filesystems, hour) ::
      AggregateFilesystem(Collect(DetailSeries(db.filesystems, g.node, g.resource), hour))
  }

  /** The inner join drops a network sample that has no main sample. */
  function NetworkGroups(db: SampleDb, hour: Hour): map<HourDetail, NetworkHour> {
    var joined := map k | k in db.network && MinuteKey(k.minute, k.node) in db.main :: db.network[k];
    map g | g in DetailKeys(joined, hour) :: AggregateNetwork(Collect(JoinedSeries(db, g.node, g.resource), hour))
  }

  function GpuGroups(db: SampleDb, hour: Hour): map<HourDetail, GpuHour> {
    map g | g in DetailKeys(db.gpus, hour) :: AggregateGpu(Collect(DetailSeries(db.gpus, g.node, g.resource), hour))
  }

  /** `INSERT ... GROUP BY ... ON CONFLICT DO UPDATE`, then delete the hour's rows that have no sample. */
  function UpsertThenSweep<A>(table: map<HourDetail, A>, groups: map<HourDetail, A>, hour: Hour, sampled: set<HourDetail>)
    : map<HourDetail, A>
  {
    map g | g in table + groups && (g.hour == hour ==> g in sampled) :: (table + groups)[g]
  }

  function RollupHour(db: SampleDb, hourly: HourlyDb, hour: Hour): HourlyDb {
    var nodes := hourly.nodes + NodeGroups(db, hour);
    HourlyDb(
      map g | g in nodes && (g.hour == hour ==> exists k :: k in db.main && HourOfMinute(k.minute) == hour && k.node == g.node) :: nodes[g],
      UpsertThenSweep(hourly.filesystems, FilesystemGroups(db, hour), hour, DetailKeys(db.filesystems, hour)),
      UpsertThenSweep(hourly.network, NetworkGroups(db, hour), hour, DetailKeys(db.network, hour)),
      UpsertThenSweep(hourly.gpus, GpuGroups(db, hour), hour, DetailKeys(db.gpus, hour)))
  }

  // ---- what a rollup achieves ----

  /** The foreign key of the detail tables on the main table. */
  ghost predicate DetailsHaveMain(db: SampleDb) {
    && (forall k :: k in db.filesystems ==> MinuteKey(k.minute, k.node) in db.main)
    && (forall k :: k in db.network ==> MinuteKey(k.minute, k.node) in db.main)
    && (forall k :: k in db.gpus ==> MinuteKey(k.minute, k.node) in db.main)
  }

  /** The hour's rows are exactly the groups: none stale, none missing, each the aggregate of its samples. */
  ghost predicate HourIs(hourly: HourlyDb, db: SampleDb, hour: Hour) {
    && (forall node :: (HourKey(hour, node) in hourly.nodes <==> exists m :: InHour(m, hour) && MinuteKey(m, node) in db.main)
          && (HourKey(hour, node) in hourly.nodes ==>
                hourly.nodes[HourKey(hour, node)] == AggregateNode(Collect(MainSeries(db, node), hour))))
    && (forall node, id ::
          (HourDetail(hour, node, id) in hourly.filesystems <==> exists m :: InHour(m, hour) && DetailKey(m, node, id) in db.filesystems)
          && (HourDetail(hour, node, id) in hourly.filesystems ==>
                hourly.filesystems[HourDetail(hour, node, id)]
                == AggregateFilesystem(Collect(DetailSeries(db.filesystems, node, id), hour))))
    && (forall node, id ::
          (HourDetail(hour, node, id) in hourly.network <==> exists m :: InHour(m, hour) && DetailKey(m, node, id) in db.network)
          && (HourDetail(hour, node, id) in hourly.network ==>
                hourly.network[HourDetail(hour, node, id)] == AggregateNetwork(Collect(JoinedSeries(db, node, id), hour))))
    && (forall node, id ::
          (HourDetail(hour, node, id) in hourly.gpus <==> exists m :: InHour(m, hour) && DetailKey(m, node, id) in db.gpus)
          && (HourDetail(hour, node, id) in hourly.gpus ==>
                hourly.gpus[HourDetail(hour, node, id)] == AggregateGpu(Collect(DetailSeries(db.gpus, node, id), hour))))
  }

  ghost predicate SameHourly(a: HourlyDb, b: HourlyDb, hour: Hour) {
    && (forall node :: Alike(a.nodes, b.nodes, HourKey(hour, node)))
    && (forall node, id :: Alike(a.filesystems, b.filesystems, HourDetail(hour, node, id)))
    && (forall node, id :: Alike(a.network, b.network, HourDetail(hour, node, id)))
    && (forall node, id :: Alike(a.gpus, b.gpus, HourDetail(hour, node, id)))
  }

  ghost predicate Alike<K, V>(a: map<K, V>, b: map<K, V>, k: K) {
    (k in a <==> k in b) && (k in a ==> a[k] == b[k])
  }

  ghost predicate SameSamples(a: SampleDb, b: SampleDb, hour: Hour) {
    && (forall k: MinuteKey :: InHour(k.minute, hour) ==> Alike(a.main, b.main, k))
    && (forall k: DetailKey :: InHour(k.minute, hour) ==> Alike(a.filesystems, b.filesystems, k))
    && (forall k: DetailKey :: InHour(k.minute, hour) ==> Alike(a.network, b.network, k))
    && (forall k: DetailKey :: InHour(k.minute, hour) ==> Alike(a.gpus, b.gpus, k))
  }

  lemma DetailKeysAt<S>(table: map<DetailKey, S>, hour: Hour, node: NodeId, id: Id)
    ensures HourDetail(hour, node, id) in DetailKeys(table, hour) <==> exists m :: InHour(m, hour) && DetailKey(m, node, id) in table
  {
    if HourDetail(hour, node, id) in DetailKeys(table, hour) {
      var k :| k in table && HourOfMinute(k.minute) == hour && HourDetail(hour, k.node, k.resource) == HourDetail(hour, node, id);
      assert InHour(k.minute, hour) && DetailKey(k.minute, node, id) in table;
    }
    if m :| InHour(m, hour) && DetailKey(m, node, id) in table {
      assert HourOfMinute(DetailKey(m, node, id).minute) == hour;
    }
  }

  lemma SweepExact<A>(table: map<HourDetail, A>, groups: map<HourDetail, A>, hour: Hour, sampled: set<HourDetail>)
    requires groups.Keys == sampled && forall g :: g in sampled ==> g.hour == hour
    ensures var r := UpsertThenSweep(table, groups, hour, sampled);
      && (forall g :: g in r && g.hour == hour <==> g in groups)
      && (forall g :: g in groups ==> r[g] == groups[g])
      && (forall g: HourDetail :: g.hour != hour ==> Alike(table, r, g))
  {}

  /** `rollup_hour` makes all four tables exact for its hour and leaves every other hour alone. */
  lemma RollupIsExact(db: SampleDb, hourly: HourlyDb, hour: Hour)
    requires DetailsHaveMain(db)
    ensures HourIs(RollupHour(db, hourly, hour), db, hour)
    ensures forall h :: h != hour ==> SameHourly(hourly, RollupHour(db, hourly, hour), h)
  {
    var r := RollupHour(db, hourly, hour);
    RollupFilesystems(db, hourly, hour);
    RollupNetwork(db, hourly, hour);
    RollupGpus(db, hourly, hour);
    RollupNodes(db, hourly, hour);
  }

  lemma RollupNodes(db: SampleDb, hourly: HourlyDb, hour: Hour)
    ensures var r := RollupHour(db, hourly, hour).nodes;
      && (forall node :: (HourKey(hour, node) in r <==> exists m :: InHour(m, hour) && MinuteKey(m, node) in db.main)
            && (HourKey(hour, node) in r ==> r[HourKey(hour, node)] == AggregateNode(Collect(MainSeries(db, node), hour))))
      && (forall g: HourKey :: g.hour != hour ==> Alike(hourly.nodes, r, g))
  {
    hide AggregateNode, Collect;
    var r := RollupHour(db, hourly, hour).nodes;
    forall node ensures HourKey(hour, node) in NodeGroups(db, hour) <==> exists m :: InHour(m, hour) && MinuteKey(m, node) in db.main {
      NodeGroupAt(db, hour, node);
    }
    forall node | HourKey(hour, node) in r
      ensures HourKey(hour, node) in NodeGroups(db, hour)
      ensures r[HourKey(hour, node)] == AggregateNode(Collect(MainSeries(db, node), hour))
    {
      NodeGroupAt(db, hour, node);
    }
  }

  lemma NodeGroupAt(db: SampleDb, hour: Hour, node: NodeId)
    ensures HourKey(hour, node) in NodeGroups(db, hour) <==> exists m :: InHour(m, hour) && MinuteKey(m, node) in db.main
    ensures HourKey(hour, node) in NodeGroups(db, hour) <==> exists k :: k in db.main && HourOfMinute(k.minute) == hour && k.node == node
    ensures HourKey(hour, node) in NodeGroups(db, hour) ==>
              NodeGroups(db, hour)[HourKey(hour, node)] == AggregateNode(Collect(MainSeries(db, node), hour))
  {
    hide AggregateNode, Collect;
    if k :| k in db.main && HourOfMinute(k.minute) == hour && k.node == node {
      assert InHour(k.minute, hour) && MinuteKey(k.minute, node) in db.main;
    }
    if m :| InHour(m, hour) && MinuteKey(m, node) in db.main {
      assert HourKey(hour, MinuteKey(m, node).node) in NodeGroups(db, hour);
      assert HourOfMinute(MinuteKey(m, node).minute) == hour;
    }
  }

  lemma RollupFilesystems(db: SampleDb, hourly: HourlyDb, hour: Hour)
    ensures var r := RollupHour(db, hourly, hour).filesystems;
      && (forall node, id :: (HourDetail(hour, node, id) in r <==> exists m :: InHour(m, hour) && DetailKey(m, node, id) in db.filesystems)
            && (HourDetail(hour, node, id) in r ==>
                  r[HourDetail(hour, node, id)] == AggregateFilesystem(Collect(DetailSeries(db.filesystems, node, id), hour))))
      && (forall g: HourDetail :: g.hour != hour ==> Alike(hourly.filesystems, r, g))
  {
    hide AggregateFilesystem, Collect;
    SweepExact(hourly.filesystems, FilesystemGroups(db, hour), hour, DetailKeys(db.filesystems, hour));
    forall node, id ensures HourDetail(hour, node, id) in DetailKeys(db.filesystems, hour)
                            <==> exists m :: InHour(m, hour) && DetailKey(m, node, id) in db.filesystems {
      DetailKeysAt(db.filesystems, hour, node, id);
    }
  }

  /** No network sample is lost in the join, because each has its main sample. */
  lemma RollupNetwork(db: SampleDb, hourly: HourlyDb, hour: Hour)
    requires DetailsHaveMain(db)
    ensures var r := RollupHour(db, hourly, hour).network;
      && (forall node, id :: (HourDetail(hour, node, id) in r <==> exists m :: InHour(m, hour) && DetailKey(m, node, id) in db.network)
            && (HourDetail(hour, node, id) in r ==>
                  r[HourDetail(hour, node, id)] == AggregateNetwork(Collect(JoinedSeries(db, node, id), hour))))
      && (forall g: HourDetail :: g.hour != hour ==> Alike(hourly.network, r, g))
  {
    hide AggregateNetwork, Collect;
    assert db.network == map k | k in db.network && MinuteKey(k.minute, k.node) in db.main :: db.network[k];
    SweepExact(hourly.network, NetworkGroups(db, hour), hour, DetailKeys(db.network, hour));
    forall node, id ensures HourDetail(hour, node, id) in DetailKeys(db.network, hour)
                            <==> exists m :: InHour(m, hour) && DetailKey(m, node, id) in db.network {
      DetailKeysAt(db.network, hour, node, id);
    }
  }

  lemma RollupGpus(db: SampleDb, hourly: HourlyDb, hour: Hour)
    ensures var r := RollupHour(db, hourly, hour).gpus;
      && (forall node, id :: (HourDetail(hour, node, id) in r <==> exists m :: InHour(m, hour) && DetailKey(m, node, id) in db.gpus)
            && (HourDetail(hour, node, id) in r ==>
                  r[HourDetail(hour, node, id)] == AggregateGpu(Collect(DetailSeries(db.gpus, node, id), hour))))
      && (forall g: HourDetail :: g.hour != hour ==> Alike(hourly.gpus, r, g))
  {
    hide AggregateGpu, Collect;
    SweepExact(hourly.gpus, GpuGroups(db, hour), hour, DetailKeys(db.gpus, hour));
    forall node, id ensures HourDetail(hour, node, id) in DetailKeys(db.gpus, hour)
                            <==> exists m :: InHour(m, hour) && DetailKey(m, node, id) in db.gpus {
      DetailKeysAt(db.gpus, hour, node, id);
    }
  }

  /** Which rows an hour has depends only on the samples of that hour. */
  lemma HourIsTransfers(hourly: HourlyDb, a: SampleDb, b: SampleDb, hour: Hour)
    requires HourIs(hourly, a, hour) && SameSamples(a, b, hour)
    ensures HourIs(hourly, b, hour)
  {
    hide AggregateNode, AggregateFilesystem, AggregateNetwork, AggregateGpu, Collect;
    forall node ensures Collect(MainSeries(a, node), hour) == Collect(MainSeries(b, node), hour) {
      forall m | InHour(m, hour) ensures MainSeries(a, node)(m) == MainSeries(b, node)(m) {
        assert Alike(a.main, b.main, MinuteKey(m, node));
      }
      CollectAgrees(MainSeries(a, node), MainSeries(b, node), hour);
    }
    DetailCollectSame(a.filesystems, b.filesystems, hour);
    DetailCollectSame(a.gpus, b.gpus, hour);
    forall node, id ensures Collect(JoinedSeries(a, node, id), hour) == Collect(JoinedSeries(b, node, id), hour) {
      forall m | InHour(m, hour) ensures JoinedSeries(a, node, id)(m) == JoinedSeries(b, node, id)(m) {
        assert Alike(a.main, b.main, MinuteKey(m, node)) && Alike(a.network, b.network, DetailKey(m, node, id));
      }
      CollectAgrees(JoinedSeries(a, node, id), JoinedSeries(b, node, id), hour);
    }
    assert forall m, node :: InHour(m, hour) ==> (MinuteKey(m, node) in a.main <==> MinuteKey(m, node) in b.main) by {
      forall m, node | InHour(m, hour) ensures MinuteKey(m, node) in a.main <==> MinuteKey(m, node) in b.main {
        assert Alike(a.main, b.main, MinuteKey(m, node));
      }
    }
    DetailSame(a.filesystems, b.filesystems, hour);
    DetailSame(a.network, b.network, hour);
    DetailSame(a.gpus, b.gpus, hour);
  }

  lemma DetailSame<S>(a: map<DetailKey, S>, b: map<DetailKey, S>, hour: Hour)
    requires forall k: DetailKey :: InHour(k.minute, hour) ==> Alike(a, b, k)
    ensures forall m, node, id :: InHour(m, hour) ==> (DetailKey(m, node, id) in a <==> DetailKey(m, node, id) in b)
  {
    forall m, node, id | InHour(m, hour) ensures DetailKey(m, node, id) in a <==> DetailKey(m, node, id) in b {
      assert Alike(a, b, DetailKey(m, node, id));
    }
  }

  lemma DetailCollectSame<S>(a: map<DetailKey, S>, b: map<DetailKey, S>, hour: Hour)
    requires forall k: DetailKey :: InHour(k.minute, hour) ==> Alike(a, b, k)
    ensures forall node, id :: Collect(DetailSeries(a, node, id), hour) == Collect(DetailSeries(b, node, id), hour)
  {
    hide Collect;
    forall node, id ensures Collect(DetailSeries(a, node, id), hour) == Collect(DetailSeries(b, node, id), hour) {
      forall m | InHour(m, hour) ensures DetailSeries(a, node, id)(m) == DetailSeries(b, node, id)(m) {
        assert Alike(a, b, DetailKey(m, node, id));
      }
      CollectAgrees(DetailSeries(a, node, id), DetailSeries(b, node, id), hour);
    }
  }

  /** An hour's exact rows are determined: two databases exact for the same samples agree on the hour. */
  lemma HourIsDetermines(x: HourlyDb, y: HourlyDb, db: SampleDb, hour: Hour)
    requires HourIs(x, db, hour) && HourIs(y, db, hour)
    ensures SameHourly(x, y, hour)
  {
    hide AggregateNode, AggregateFilesystem, AggregateNetwork, AggregateGpu, Collect;
  }

  lemma HourIsKept(x: HourlyDb, y: HourlyDb, db: SampleDb, hour: Hour)
    requires HourIs(x, db, hour) && SameHourly(x, y, hour)
    ensures HourIs(y, db, hour)
  {
    hide AggregateNode, AggregateFilesystem, AggregateNetwork, AggregateGpu, Collect;
    assert forall node :: Alike(x.nodes, y.nodes, HourKey(hour, node));
    assert forall node, id :: Alike(x.filesystems, y.filesystems, HourDetail(hour, node, id));
    assert forall node, id :: Alike(x.network, y.network, HourDetail(hour, node, id));
    assert forall node, id :: Alike(x.gpus, y.gpus, HourDetail(hour, node, id));
  }

  /** Running `rollup_hour` again changes nothing. */
  lemma RollupIdempotent(db: SampleDb, hourly: HourlyDb, hour: Hour)
    requires DetailsHaveMain(db)
    ensures var once := RollupHour(db, hourly, hour);
      forall h :: SameHourly(once, RollupHour(db, once, hour), h)
  {
    var once := RollupHour(db, hourly, hour);
    RollupIsExact(db, hourly, hour);
    RollupIsExact(db, once, hour);
    HourIsDetermines(once, RollupHour(db, once, hour), db, hour);
  }
}
