/**
 * What the rows of `rollup_hour` say, column by column, of the samples stored in their hour
 * (db/migrations/V007__gpu_history_metrics.sql:275-415).
 */
module HourFigures {
  import opened Text
  import opened Clock
  import opened Reports
  import opened InventoryTables
  import opened NetworkTables
  import opened Samples
  import opened Rollups

  /** What the sample of a minute, if one is stored, says in one column. */
  type Column = Minute -> Option<real>

  function MinuteTotal(c: Column, m: Minute): real {
    if c(m).Some? then c(m).value else 0.0
  }

  function TotalFrom(c: Column, start: Minute, n: nat): real {
    if n == 0 then 0.0 else TotalFrom(c, start, n - 1) + MinuteTotal(c, start + n - 1)
  }

  /** The column added up over the sixty minutes of the hour. */
  function Total(c: Column, hour: Hour): real {
    TotalFrom(c, hour * 60, 60)
  }

  // ---- figures ----

  ghost predicate IsTotal(figure: int, c: Column, hour: Hour) {
    figure as real == Total(c, hour)
  }

  ghost predicate IsAverage(figure: real, count: nat, c: Column, hour: Hour) {
    figure * (count as real) == Total(c, hour)
  }

  /** The average rounded to the nearest integer, halves upward. */
  ghost predicate IsRoundedAverage(figure: int, count: nat, c: Column, hour: Hour) {
    count > 0 && figure as real - 0.5 <= Total(c, hour) / (count as real) < figure as real + 0.5
  }

  /** No minute of the hour has more, and some minute has it. */
  ghost predicate IsMaximum(figure: real, c: Column, hour: Hour) {
    && (forall m :: InHour(m, hour) && c(m).Some? ==> c(m).value <= figure)
    && (exists m :: InHour(m, hour) && c(m) == Some(figure))
  }

  // ---- columns ----

  function MainColumn(db: SampleDb, node: NodeId, of: MainSample -> real): Column {
    m => if MinuteKey(m, node) in db.main then Some(of(db.main[MinuteKey(m, node)])) else None
  }

  function DetailColumn<S>(table: map<DetailKey, S>, node: NodeId, id: Id, of: S -> real): Column {
    m => if DetailKey(m, node, id) in table then Some(of(table[DetailKey(m, node, id)])) else None
  }

  /** A column of the network samples that also reads the seconds their minute's main sample covers. */
  function TimedColumn(db: SampleDb, node: NodeId, id: Id, of: (NetworkMetrics, int) -> real): Column {
    m =>
      if DetailKey(m, node, id) in db.network && MinuteKey(m, node) in db.main
      then Some(of(db.network[DetailKey(m, node, id)], db.main[MinuteKey(m, node)].intervalSeconds))
      else None
  }

  // ---- the four rows ----

  ghost predicate LoadSays(row: NodeHour, db: SampleDb, node: NodeId, hour: Hour) {
    var n := row.sampleCount;
    var cpu := MainColumn(db, node, (s: MainSample) => s.cpu.usagePercent);
    var load := MainColumn(db, node, (s: MainSample) => s.cpu.load1);
    && IsAverage(row.cpuAvg, n, cpu, hour) && IsMaximum(row.cpuMax, cpu, hour)
    && IsAverage(row.load1Avg, n, load, hour) && IsMaximum(row.load1Max, load, hour)
  }

  ghost predicate MemorySays(row: NodeHour, db: SampleDb, node: NodeId, hour: Hour) {
    var n := row.sampleCount;
    var used := MainColumn(db, node, (s: MainSample) => s.memory.usedBytes as real);
    var usage := MainColumn(db, node, (s: MainSample) =>
      if s.memory.totalBytes == 0 then 0.0 else 100.0 * (s.memory.usedBytes as real) / (s.memory.totalBytes as real));
    && IsRoundedAverage(row.memoryUsedAvg, n, used, hour) && IsMaximum(row.memoryUsedMax as real, used, hour)
    && IsAverage(row.memoryUsageAvg, n, usage, hour) && IsMaximum(row.memoryUsageMax, usage, hour)
  }

  ghost predicate DiskSays(row: NodeHour, db: SampleDb, node: NodeId, hour: Hour) {
    var n := row.sampleCount;
    var read := MainColumn(db, node, (s: MainSample) => s.disk.readBytesDelta as real);
    var written := MainColumn(db, node, (s: MainSample) => s.disk.writeBytesDelta as real);
    var readRate := MainColumn(db, node, (s: MainSample) =>
      if s.intervalSeconds == 0 then 0.0 else s.disk.readBytesDelta as real / (s.intervalSeconds as real));
    var writeRate := MainColumn(db, node, (s: MainSample) =>
      if s.intervalSeconds == 0 then 0.0 else s.disk.writeBytesDelta as real / (s.intervalSeconds as real));
    && IsTotal(row.diskReadBytes, read, hour) && IsTotal(row.diskWriteBytes, written, hour)
    && IsAverage(row.diskReadRateAvg, n, readRate, hour) && IsMaximum(row.diskReadRateMax, readRate, hour)
    && IsAverage(row.diskWriteRateAvg, n, writeRate, hour) && IsMaximum(row.diskWriteRateMax, writeRate, hour)
  }

  ghost predicate NodeRowSays(row: NodeHour, db: SampleDb, node: NodeId, hour: Hour) {
    && row.sampleCount == |set m | hour * 60 <= m < hour * 60 + 60 && MinuteKey(m, node) in db.main| > 0
    && LoadSays(row, db, node, hour) && MemorySays(row, db, node, hour) && DiskSays(row, db, node, hour)
  }

  ghost predicate FilesystemRowSays(row: FilesystemHour, db: SampleDb, node: NodeId, id: Id, hour: Hour) {
    var n := row.sampleCount;
    var used := DetailColumn(db.filesystems, node, id, (s: FilesystemSample) => s.usedBytes as real);
    var usage := DetailColumn(db.filesystems, node, id, (s: FilesystemSample) =>
      if s.totalBytes == 0 then 0.0 else 100.0 * (s.usedBytes as real) / (s.totalBytes as real));
    && n == |set m | hour * 60 <= m < hour * 60 + 60 && DetailKey(m, node, id) in db.filesystems| > 0
    && IsAverage(row.usageAvg, n, usage, hour) && IsMaximum(row.usageMax, usage, hour)
    && IsMaximum(row.usedBytesMax as real, used, hour)
  }

  ghost predicate NetworkRowSays(row: NetworkHour, db: SampleDb, node: NodeId, id: Id, hour: Hour) {
    var n := row.sampleCount;
    var received := DetailColumn(db.network, node, id, (s: NetworkMetrics) => s.rxBytesDelta as real);
    var sent := DetailColumn(db.network, node, id, (s: NetworkMetrics) => s.txBytesDelta as real);
    var receivedRate := TimedColumn(db, node, id, (s: NetworkMetrics, seconds: int) =>
      if seconds == 0 then 0.0 else 8.0 * (s.rxBytesDelta as real) / (seconds as real));
    var sentRate := TimedColumn(db, node, id, (s: NetworkMetrics, seconds: int) =>
      if seconds == 0 then 0.0 else 8.0 * (s.txBytesDelta as real) / (seconds as real));
    && n == |set m | hour * 60 <= m < hour * 60 + 60 && DetailKey(m, node, id) in db.network| > 0
    && IsTotal(row.rxBytes, received, hour) && IsTotal(row.txBytes, sent, hour)
    && IsAverage(row.rxBitsAvg, n, receivedRate, hour) && IsMaximum(row.rxBitsMax, receivedRate, hour)
    && IsAverage(row.txBitsAvg, n, sentRate, hour) && IsMaximum(row.txBitsMax, sentRate, hour)
  }

  ghost predicate GpuRowSays(row: GpuHour, db: SampleDb, node: NodeId, id: Id, hour: Hour) {
    var n := row.sampleCount;
    var utilization := DetailColumn(db.gpus, node, id, (s: GpuSample) => s.utilizationPercent);
    var used := DetailColumn(db.gpus, node, id, (s: GpuSample) => s.memoryUsedBytes as real);
    var usage := DetailColumn(db.gpus, node, id, (s: GpuSample) =>
      if s.memoryTotalBytes == 0 then 0.0 else 100.0 * (s.memoryUsedBytes as real) / (s.memoryTotalBytes as real));
    && n == |set m | hour * 60 <= m < hour * 60 + 60 && DetailKey(m, node, id) in db.gpus| > 0
    && IsAverage(row.utilizationAvg, n, utilization, hour) && IsMaximum(row.utilizationMax, utilization, hour)
    && IsRoundedAverage(row.memoryUsedAvg, n, used, hour) && IsMaximum(row.memoryUsedMax as real, used, hour)
    && IsAverage(row.memoryUsageAvg, n, usage, hour) && IsMaximum(row.memoryUsageMax, usage, hour)
  }

  // ---- aggregates of a group ----

  /** The column is what `f` reads from the rows of the series. */
  ghost predicate Reads<S>(c: Column, series: Series<S>, f: S -> real, hour: Hour) {
    forall m :: hour * 60 <= m < hour * 60 + 60 ==> c(m) == if series(m).Some? then Some(f(series(m).value)) else None
  }

  lemma {:induction false} SumIsTotal<S>(c: Column, series: Series<S>, f: S -> real, hour: Hour, n: nat)
    requires n <= 60 && Reads(c, series, f, hour)
    ensures Sum(f, CollectFrom(series, hour * 60, n)) == TotalFrom(c, hour * 60, n)
  {
    if n > 0 {
      SumIsTotal(c, series, f, hour, n - 1);
      var before := CollectFrom(series, hour * 60, n - 1);
      var row := series(hour * 60 + n - 1);
      if row.Some? {
        assert (before + [row.value])[..|before|] == before;
      } else {
        assert before + [] == before;
      }
    }
  }

  lemma {:induction false} CountIsMinutes<S>(series: Series<S>, start: Minute, n: nat)
    ensures |CollectFrom(series, start, n)| == |set m | start <= m < start + n && series(m).Some?|
  {
    if n > 0 {
      CountIsMinutes(series, start, n - 1);
      var last := start + n - 1;
      var before, now := set m | start <= m < start + (n - 1) && series(m).Some?, set m | start <= m < start + n && series(m).Some?;
      assert last !in before;
      assert now == before + if series(last).Some? then {last} else {};
    } else {
      assert (set m | start <= m < start && series(m).Some?) == {};
    }
  }

  lemma MaximumOfGroup<S>(c: Column, series: Series<S>, f: S -> real, hour: Hour)
    requires Reads(c, series, f, hour) && Collect(series, hour) != []
    ensures IsMaximum(Max(f, Collect(series, hour)), c, hour)
  {
    var rows := Collect(series, hour);
    CollectFromIsGroup(series, hour * 60, 60);
    hide CollectFrom, Max;
    forall m | InHour(m, hour) && c(m).Some? ensures c(m).value <= Max(f, rows) {
      assert Occurs(series, hour * 60, 60, series(m).value);
      var i :| 0 <= i < |rows| && rows[i] == series(m).value;
    }
    var i :| 0 <= i < |rows| && f(rows[i]) == Max(f, rows);
    assert Occurs(series, hour * 60, 60, rows[i]);
    var m :| hour * 60 <= m < hour * 60 + 60 && series(m) == Some(rows[i]);
    assert InHour(m, hour) && c(m) == Some(f(rows[i]));
  }

  lemma AverageIs(sum: real, n: nat, avg: real)
    requires n > 0 && avg == sum / (n as real)
    ensures avg * (n as real) == sum
  {}

  lemma RoundedIs(x: real)
    ensures Round(x) as real - 0.5 <= x < Round(x) as real + 0.5
  {}

  /** Sum, average, rounded average and maximum of a group are those of the column over the hour. */
  lemma GroupFigures<S>(c: Column, series: Series<S>, f: S -> real, hour: Hour)
    requires Reads(c, series, f, hour) && Collect(series, hour) != []
    ensures var rows := Collect(series, hour);
      && Sum(f, rows) == Total(c, hour) && IsAverage(Avg(f, rows), |rows|, c, hour)
      && IsRoundedAverage(Round(Avg(f, rows)), |rows|, c, hour) && IsMaximum(Max(f, rows), c, hour)
  {
    hide TotalFrom, CollectFrom, Max, IsMaximum, Sum, Round;
    var rows := Collect(series, hour);
    SumIsTotal(c, series, f, hour, 60);
    MaximumOfGroup(c, series, f, hour);
    AverageIs(Sum(f, rows), |rows|, Avg(f, rows));
    RoundedIs(Avg(f, rows));
  }

  /** Whole numbers have a whole sum and a whole maximum. */
  lemma {:induction false} WholeSum<S>(f: S -> real, rows: seq<S>)
    requires forall i :: 0 <= i < |rows| ==> f(rows[i]) == f(rows[i]).Floor as real
    ensures Sum(f, rows) == Sum(f, rows).Floor as real
  {
    if rows != [] {
      var n := |rows| - 1;
      WholeSum(f, rows[..n]);
      assert f(rows[n]) == f(rows[n]).Floor as real;
      WholePlus(Sum(f, rows[..n]), f(rows[n]));
    }
  }

  lemma WholePlus(a: real, b: real)
    requires a == a.Floor as real && b == b.Floor as real
    ensures a + b == (a + b).Floor as real
  {
    assert a + b == (a.Floor + b.Floor) as real;
  }

  lemma WholeFigures<S>(f: S -> real, rows: seq<S>)
    requires rows != [] && forall i :: 0 <= i < |rows| ==> f(rows[i]) == f(rows[i]).Floor as real
    ensures Sum(f, rows) == Sum(f, rows).Floor as real && Max(f, rows) == Max(f, rows).Floor as real
  {
    WholeSum(f, rows);
    hide Sum;
    var i :| 0 <= i < |rows| && f(rows[i]) == Max(f, rows);
  }

  // ---- the rows ----

  lemma SomeMinuteCollected<S>(series: Series<S>, hour: Hour, m: Minute)
    requires InHour(m, hour) && series(m).Some?
    ensures Collect(series, hour) != []
  {
    CollectFromIsGroup(series, hour * 60, 60);
    assert Occurs(series, hour * 60, 60, series(m).value);
  }

  lemma LoadFigures(db: SampleDb, node: NodeId, hour: Hour)
    requires Collect(MainSeries(db, node), hour) != []
    ensures LoadSays(AggregateNode(Collect(MainSeries(db, node), hour)), db, node, hour)
  {
    hide Collect, Sum, Avg, Max, Round, IsAverage, IsMaximum, IsRoundedAverage, Total, Percent, PerSecond;
    var series := MainSeries(db, node);
    GroupFigures(MainColumn(db, node, (s: MainSample) => s.cpu.usagePercent), series, (s: MainSample) => s.cpu.usagePercent, hour);
    GroupFigures(MainColumn(db, node, (s: MainSample) => s.cpu.load1), series, (s: MainSample) => s.cpu.load1, hour);
  }

  lemma MemoryFigures(db: SampleDb, node: NodeId, hour: Hour)
    requires Collect(MainSeries(db, node), hour) != []
    ensures MemorySays(AggregateNode(Collect(MainSeries(db, node), hour)), db, node, hour)
  {
    hide Collect, Sum, Avg, Max, Round, IsAverage, IsMaximum, IsRoundedAverage, Total, PerSecond;
    var series := MainSeries(db, node);
    GroupFigures(MainColumn(db, node, (s: MainSample) => s.memory.usedBytes as real), series,
                 (s: MainSample) => s.memory.usedBytes as real, hour);
    WholeFigures((s: MainSample) => s.memory.usedBytes as real, Collect(series, hour));
    GroupFigures(MainColumn(db, node, (s: MainSample) =>
                   if s.memory.totalBytes == 0 then 0.0 else 100.0 * (s.memory.usedBytes as real) / (s.memory.totalBytes as real)),
                 series, (s: MainSample) => Percent(s.memory.usedBytes, s.memory.totalBytes), hour);
  }

  lemma DiskFigures(db: SampleDb, node: NodeId, hour: Hour)
    requires Collect(MainSeries(db, node), hour) != []
    ensures DiskSays(AggregateNode(Collect(MainSeries(db, node), hour)), db, node, hour)
  {
    hide Collect, Sum, Avg, Max, Round, IsAverage, IsMaximum, IsRoundedAverage, Total, Percent;
    var series := MainSeries(db, node);
    var rows := Collect(series, hour);
    GroupFigures(MainColumn(db, node, (s: MainSample) => s.disk.readBytesDelta as real), series,
                 (s: MainSample) => s.disk.readBytesDelta as real, hour);
    WholeFigures((s: MainSample) => s.disk.readBytesDelta as real, rows);
    GroupFigures(MainColumn(db, node, (s: MainSample) => s.disk.writeBytesDelta as real), series,
                 (s: MainSample) => s.disk.writeBytesDelta as real, hour);
    WholeFigures((s: MainSample) => s.disk.writeBytesDelta as real, rows);
    GroupFigures(MainColumn(db, node, (s: MainSample) =>
                   if s.intervalSeconds == 0 then 0.0 else s.disk.readBytesDelta as real / (s.intervalSeconds as real)),
                 series, (s: MainSample) => PerSecond(s.disk.readBytesDelta, s.intervalSeconds), hour);
    GroupFigures(MainColumn(db, node, (s: MainSample) =>
                   if s.intervalSeconds == 0 then 0.0 else s.disk.writeBytesDelta as real / (s.intervalSeconds as real)),
                 series, (s: MainSample) => PerSecond(s.disk.writeBytesDelta, s.intervalSeconds), hour);
  }

  lemma NodeFigures(db: SampleDb, node: NodeId, hour: Hour, m: Minute)
    requires InHour(m, hour) && MinuteKey(m, node) in db.main
    ensures NodeRowSays(AggregateNode(Collect(MainSeries(db, node), hour)), db, node, hour)
  {
    hide Sum, Avg, Max, Round, LoadSays, MemorySays, DiskSays;
    var series := MainSeries(db, node);
    SomeMinuteCollected(series, hour, m);
    CountIsMinutes(series, hour * 60, 60);
    assert (set m | hour * 60 <= m < hour * 60 + 60 && series(m).Some?)
           == set m | hour * 60 <= m < hour * 60 + 60 && MinuteKey(m, node) in db.main;
    hide CollectFrom;
    LoadFigures(db, node, hour);
    MemoryFigures(db, node, hour);
    DiskFigures(db, node, hour);
  }

  lemma DetailCount<S>(table: map<DetailKey, S>, node: NodeId, id: Id, hour: Hour, m: Minute)
    requires InHour(m, hour) && DetailKey(m, node, id) in table
    ensures |Collect(DetailSeries(table, node, id), hour)| == |set m | hour * 60 <= m < hour * 60 + 60 && DetailKey(m, node, id) in table| > 0
  {
    var series := DetailSeries(table, node, id);
    SomeMinuteCollected(series, hour, m);
    CountIsMinutes(series, hour * 60, 60);
    assert (set m | hour * 60 <= m < hour * 60 + 60 && series(m).Some?)
           == set m | hour * 60 <= m < hour * 60 + 60 && DetailKey(m, node, id) in table;
    hide CollectFrom;
  }

  lemma FilesystemFigures(db: SampleDb, node: NodeId, id: Id, hour: Hour, m: Minute)
    requires InHour(m, hour) && DetailKey(m, node, id) in db.filesystems
    ensures FilesystemRowSays(AggregateFilesystem(Collect(DetailSeries(db.filesystems, node, id), hour)), db, node, id, hour)
  {
    hide Collect, Sum, Avg, Max, Round, IsAverage, IsMaximum, IsRoundedAverage, Total;
    var series := DetailSeries(db.filesystems, node, id);
    DetailCount(db.filesystems, node, id, hour, m);
    GroupFigures(DetailColumn(db.filesystems, node, id, (s: FilesystemSample) => s.usedBytes as real), series,
                 (s: FilesystemSample) => s.usedBytes as real, hour);
    WholeFigures((s: FilesystemSample) => s.usedBytes as real, Collect(series, hour));
    GroupFigures(DetailColumn(db.filesystems, node, id, (s: FilesystemSample) =>
                   if s.totalBytes == 0 then 0.0 else 100.0 * (s.usedBytes as real) / (s.totalBytes as real)),
                 series, (s: FilesystemSample) => Percent(s.usedBytes, s.totalBytes), hour);
  }

  lemma GpuFigures(db: SampleDb, node: NodeId, id: Id, hour: Hour, m: Minute)
    requires InHour(m, hour) && DetailKey(m, node, id) in db.gpus
    ensures GpuRowSays(AggregateGpu(Collect(DetailSeries(db.gpus, node, id), hour)), db, node, id, hour)
  {
    hide Collect, Sum, Avg, Max, Round, IsAverage, IsMaximum, IsRoundedAverage, Total;
    var series := DetailSeries(db.gpus, node, id);
    DetailCount(db.gpus, node, id, hour, m);
    GroupFigures(DetailColumn(db.gpus, node, id, (s: GpuSample) => s.utilizationPercent), series,
                 (s: GpuSample) => s.utilizationPercent, hour);
    GroupFigures(DetailColumn(db.gpus, node, id, (s: GpuSample) => s.memoryUsedBytes as real), series,
                 (s: GpuSample) => s.memoryUsedBytes as real, hour);
    WholeFigures((s: GpuSample) => s.memoryUsedBytes as real, Collect(series, hour));
    GroupFigures(DetailColumn(db.gpus, node, id, (s: GpuSample) =>
                   if s.memoryTotalBytes == 0 then 0.0 else 100.0 * (s.memoryUsedBytes as real) / (s.memoryTotalBytes as real)),
                 series, (s: GpuSample) => Percent(s.memoryUsedBytes, s.memoryTotalBytes), hour);
  }

  /** Every network sample is in the join, and counts once. */
  lemma JoinedCount(db: SampleDb, node: NodeId, id: Id, hour: Hour, m: Minute)
    requires DetailsHaveMain(db) && InHour(m, hour) && DetailKey(m, node, id) in db.network
    ensures |Collect(JoinedSeries(db, node, id), hour)| == |set m | hour * 60 <= m < hour * 60 + 60 && DetailKey(m, node, id) in db.network| > 0
  {
    var series := JoinedSeries(db, node, id);
    assert MinuteKey(m, node) in db.main;
    SomeMinuteCollected(series, hour, m);
    CountIsMinutes(series, hour * 60, 60);
    assert (set m | hour * 60 <= m < hour * 60 + 60 && series(m).Some?)
           == set m | hour * 60 <= m < hour * 60 + 60 && DetailKey(m, node, id) in db.network;
    hide CollectFrom;
  }

  lemma NetworkFigures(db: SampleDb, node: NodeId, id: Id, hour: Hour, m: Minute)
    requires DetailsHaveMain(db) && InHour(m, hour) && DetailKey(m, node, id) in db.network
    ensures NetworkRowSays(AggregateNetwork(Collect(JoinedSeries(db, node, id), hour)), db, node, id, hour)
  {
    hide Collect, Sum, Avg, Max, Round, IsAverage, IsMaximum, IsRoundedAverage, Total, Percent;
    var series := JoinedSeries(db, node, id);
    var rows := Collect(series, hour);
    JoinedCount(db, node, id, hour, m);
    GroupFigures(DetailColumn(db.network, node, id, (s: NetworkMetrics) => s.rxBytesDelta as real), series,
                 (j: Joined) => j.sample.rxBytesDelta as real, hour);
    WholeFigures((j: Joined) => j.sample.rxBytesDelta as real, rows);
    GroupFigures(DetailColumn(db.network, node, id, (s: NetworkMetrics) => s.txBytesDelta as real), series,
                 (j: Joined) => j.sample.txBytesDelta as real, hour);
    WholeFigures((j: Joined) => j.sample.txBytesDelta as real, rows);
    GroupFigures(TimedColumn(db, node, id, (s: NetworkMetrics, seconds: int) =>
                   if seconds == 0 then 0.0 else 8.0 * (s.rxBytesDelta as real) / (seconds as real)),
                 series, (j: Joined) => PerSecond(j.sample.rxBytesDelta * 8, j.intervalSeconds), hour);
    GroupFigures(TimedColumn(db, node, id, (s: NetworkMetrics, seconds: int) =>
                   if seconds == 0 then 0.0 else 8.0 * (s.txBytesDelta as real) / (seconds as real)),
                 series, (j: Joined) => PerSecond(j.sample.txBytesDelta * 8, j.intervalSeconds), hour);
  }

  /** Every row of an exact hour says of the hour's stored samples what its columns promise. */
  ghost predicate HourSays(hourly: HourlyDb, db: SampleDb, hour: Hour) {
    && (forall node :: HourKey(hour, node) in hourly.nodes ==> NodeRowSays(hourly.nodes[HourKey(hour, node)], db, node, hour))
    && (forall node, id :: HourDetail(hour, node, id) in hourly.filesystems ==>
          FilesystemRowSays(hourly.filesystems[HourDetail(hour, node, id)], db, node, id, hour))
    && (forall node, id :: HourDetail(hour, node, id) in hourly.network ==>
          NetworkRowSays(hourly.network[HourDetail(hour, node, id)], db, node, id, hour))
    && (forall node, id :: HourDetail(hour, node, id) in hourly.gpus ==>
          GpuRowSays(hourly.gpus[HourDetail(hour, node, id)], db, node, id, hour))
  }

  lemma HourFiguresAre(hourly: HourlyDb, db: SampleDb, hour: Hour)
    requires HourIs(hourly, db, hour) && DetailsHaveMain(db)
    ensures HourSays(hourly, db, hour)
  {
    hide AggregateNode, AggregateFilesystem, AggregateNetwork, AggregateGpu, Collect, NodeRowSays, FilesystemRowSays, NetworkRowSays,
      GpuRowSays, DetailsHaveMain, InHour;
    forall node | HourKey(hour, node) in hourly.nodes ensures NodeRowSays(hourly.nodes[HourKey(hour, node)], db, node, hour) {
      var m :| InHour(m, hour) && MinuteKey(m, node) in db.main;
      NodeFigures(db, node, hour, m);
    }
    forall node, id | HourDetail(hour, node, id) in hourly.filesystems
      ensures FilesystemRowSays(hourly.filesystems[HourDetail(hour, node, id)], db, node, id, hour)
    {
      var m :| InHour(m, hour) && DetailKey(m, node, id) in db.filesystems;
      FilesystemFigures(db, node, id, hour, m);
    }
    forall node, id | HourDetail(hour, node, id) in hourly.network
      ensures NetworkRowSays(hourly.network[HourDetail(hour, node, id)], db, node, id, hour)
    {
      var m :| InHour(m, hour) && DetailKey(m, node, id) in db.network;
      NetworkFigures(db, node, id, hour, m);
    }
    forall node, id | HourDetail(hour, node, id) in hourly.gpus
      ensures GpuRowSays(hourly.gpus[HourDetail(hour, node, id)], db, node, id, hour)
    {
      var m :| InHour(m, hour) && DetailKey(m, node, id) in db.gpus;
      GpuFigures(db, node, id, hour, m);
    }
  }
}
