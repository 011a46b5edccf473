/**
 * Partition upkeep and the maintenance cycle (db/migrations/V007__gpu_history_metrics.sql:91-255,
 * db/migrations/V001__monitoring_schema.sql:723-742, internal/server/maintenance.go:25-41).
 */
module Partitions {
  import opened Clock
  import opened InventoryTables
  import opened NetworkTables
  import opened Samples
  import opened Rollups

  datatype Parent =
    | GpuSamples | FilesystemSamples | NetworkSamples | NodeSamples
    | GpuHourly | FilesystemHourly | NetworkHourly | NodeHourly

  /** A raw partition holds one day, an hourly partition one month. */
  datatype Partition = Partition(parent: Parent, index: int)

  datatype History = History(samples: SampleDb, hourly: HourlyDb, partitions: set<Partition>)

  predicate IsRaw(parent: Parent) {
    parent.GpuSamples? || parent.FilesystemSamples? || parent.NetworkSamples? || parent.NodeSamples?
  }

  /** The ORDER BY of the drop loop. */
  function Rank(parent: Parent): int {
    match parent
    case GpuSamples => 1
    case FilesystemSamples => 2
    case NetworkSamples => 3
    case NodeSamples => 4
    case _ => 5
  }

  predicate Expired(p: Partition, at: Instant) {
    if IsRaw(p.parent) then p.index < DayOf(at) - 90 else p.index < MonthOf(at) - 24
  }

  // ---- rows live in partitions ----

  ghost predicate RowsPartitioned(h: History) {
    && (forall k :: k in h.samples.main ==> Partition(NodeSamples, DayOfMinute(k.minute)) in h.partitions)
    && (forall k :: k in h.samples.filesystems ==> Partition(FilesystemSamples, DayOfMinute(k.minute)) in h.partitions)
    && (forall k :: k in h.samples.network ==> Partition(NetworkSamples, DayOfMinute(k.minute)) in h.partitions)
    && (forall k :: k in h.samples.gpus ==> Partition(GpuSamples, DayOfMinute(k.minute)) in h.partitions)
    && (forall k :: k in h.hourly.nodes ==> Partition(NodeHourly, MonthOfHour(k.hour)) in h.partitions)
    && (forall k :: k in h.hourly.filesystems ==> Partition(FilesystemHourly, MonthOfHour(k.hour)) in h.partitions)
    && (forall k :: k in h.hourly.network ==> Partition(NetworkHourly, MonthOfHour(k.hour)) in h.partitions)
    && (forall k :: k in h.hourly.gpus ==> Partition(GpuHourly, MonthOfHour(k.hour)) in h.partitions)
  }

  ghost predicate WfHistory(h: History) {
    RowsPartitioned(h) && DetailsHaveMain(h.samples)
  }

  // ---- creating partitions ----

  function RawPartitions(day: Day): set<Partition> {
    {Partition(NodeSamples, day), Partition(FilesystemSamples, day), Partition(NetworkSamples, day), Partition(GpuSamples, day)}
  }

  function HourlyPartitions(month: Month): set<Partition> {
    {Partition(NodeHourly, month), Partition(FilesystemHourly, month), Partition(NetworkHourly, month), Partition(GpuHourly, month)}
  }

  ghost predicate RawEnsured(before: set<Partition>, after: set<Partition>, first: Day, end: Day) {
    forall p :: p in after <==> p in before || (IsRaw(p.parent) && first <= p.index < end)
  }

  ghost predicate HourlyEnsured(before: set<Partition>, after: set<Partition>, first: Month, end: Month) {
    forall p :: p in after <==> p in before || (!IsRaw(p.parent) && first <= p.index < end)
  }

  method EnsureRawPartitions(partitions: set<Partition>, first: Day, last: Day) returns (r: set<Partition>)
    requires first <= last
    ensures RawEnsured(partitions, r, first, last + 1)
  {
    r := partitions;
    var date := first;
    while date <= last
      invariant first <= date <= last + 1
      invariant RawEnsured(partitions, r, first, date)
    {
      r := r + RawPartitions(date);
      date := date + 1;
    }
  }

  method EnsureHourlyPartitions(partitions: set<Partition>, first: Month, last: Month) returns (r: set<Partition>)
    requires first <= last
    ensures HourlyEnsured(partitions, r, first, last + 1)
  {
    r := partitions;
    var month := first;
    while month <= last
      invariant first <= month <= last + 1
      invariant HourlyEnsured(partitions, r, first, month)
    {
      r := r + HourlyPartitions(month);
      month := month + 1;
    }
  }

  // ---- dropping partitions ----

  function MinuteDay(k: MinuteKey): Day { DayOfMinute(k.minute) }

  function DetailDay(k: DetailKey): Day { DayOfMinute(k.minute) }

  function NodeMonth(k: HourKey): Month { MonthOfHour(k.hour) }

  function DetailMonth(k: HourDetail): Month { MonthOfHour(k.hour) }

  /** The rows of one table whose partition is not gone. */
  function RowsLeft<K, V>(table: map<K, V>, index: K -> int, parent: Parent, gone: set<Partition>): map<K, V> {
    map k | k in table && Partition(parent, index(k)) !in gone :: table[k]
  }

  /** The database after these partitions, and their rows, are gone. */
  function Without(h: History, gone: set<Partition>): History {
    History(
      SampleDb(
        RowsLeft(h.samples.main, MinuteDay, NodeSamples, gone),
        RowsLeft(h.samples.filesystems, DetailDay, FilesystemSamples, gone),
        RowsLeft(h.samples.network, DetailDay, NetworkSamples, gone),
        RowsLeft(h.samples.gpus, DetailDay, GpuSamples, gone)),
      HourlyDb(
        RowsLeft(h.hourly.nodes, NodeMonth, NodeHourly, gone),
        RowsLeft(h.hourly.filesystems, DetailMonth, FilesystemHourly, gone),
        RowsLeft(h.hourly.network, DetailMonth, NetworkHourly, gone),
        RowsLeft(h.hourly.gpus, DetailMonth, GpuHourly, gone)),
      h.partitions - gone)
  }

  /** DETACH and DROP of one partition. */
  function DropOne(h: History, p: Partition): History {
    Without(h, {p})
  }

  lemma DropRowsTwice<K, V>(table: map<K, V>, index: K -> int, parent: Parent, gone: set<Partition>, p: Partition)
    ensures RowsLeft(RowsLeft(table, index, parent, gone), index, parent, {p}) == RowsLeft(table, index, parent, gone + {p})
  {}

  /** PostgreSQL refuses to detach a main-sample partition that detail rows still reference. */
  predicate StillReferenced(h: History, day: Day) {
    || (exists k :: k in h.samples.filesystems && DayOfMinute(k.minute) == day)
    || (exists k :: k in h.samples.network && DayOfMinute(k.minute) == day)
    || (exists k :: k in h.samples.gpus && DayOfMinute(k.minute) == day)
  }

  lemma DropOneMore(h: History, gone: set<Partition>, p: Partition)
    ensures DropOne(Without(h, gone), p) == Without(h, gone + {p})
  {
    hide RowsLeft;
    DropRowsTwice(h.samples.main, MinuteDay, NodeSamples, gone, p);
    DropRowsTwice(h.samples.filesystems, DetailDay, FilesystemSamples, gone, p);
    DropRowsTwice(h.samples.network, DetailDay, NetworkSamples, gone, p);
    DropRowsTwice(h.samples.gpus, DetailDay, GpuSamples, gone, p);
    DropRowsTwice(h.hourly.nodes, NodeMonth, NodeHourly, gone, p);
    DropRowsTwice(h.hourly.filesystems, DetailMonth, FilesystemHourly, gone, p);
    DropRowsTwice(h.hourly.network, DetailMonth, NetworkHourly, gone, p);
    DropRowsTwice(h.hourly.gpus, DetailMonth, GpuHourly, gone, p);
    assert h.partitions - gone - {p} == h.partitions - (gone + {p});
  }

  ghost function ExpiredOf(h: History, at: Instant): set<Partition> {
    set p | p in h.partitions && Expired(p, at)
  }

  /** A possible answer of the partition query: every partition once, children before the main samples. */
  ghost predicate DropOrder(partitions: set<Partition>, order: seq<Partition>) {
    && (forall p :: p in order <==> p in partitions)
    && (forall i, j :: 0 <= i < j < |order| ==> order[i] != order[j])
    && (forall i, j :: 0 <= i < j < |order| ==> Rank(order[i].parent) <= Rank(order[j].parent))
  }

  ghost predicate ChildrenGoFirst(h: History, gone: set<Partition>, at: Instant) {
    && gone <= ExpiredOf(h, at)
    && forall p :: p in gone && p.parent.NodeSamples? ==>
         forall q :: q in h.partitions && q.index == p.index && IsRaw(q.parent) && !q.parent.NodeSamples? ==> q in gone
  }

  lemma StepKeepsForeignKeys(h: History, gone: set<Partition>, at: Instant)
    requires WfHistory(h) && ChildrenGoFirst(h, gone, at)
    ensures WfHistory(Without(h, gone))
  {
    hide MonthOfHour, DayOfMinute;
    var w := Without(h, gone).samples;
    forall k | k in w.filesystems ensures MinuteKey(k.minute, k.node) in w.main {
      assert Partition(FilesystemSamples, DayOfMinute(k.minute)) in h.partitions;
      assert MinuteKey(k.minute, k.node) in h.samples.main;
    }
    forall k | k in w.network ensures MinuteKey(k.minute, k.node) in w.main {
      assert Partition(NetworkSamples, DayOfMinute(k.minute)) in h.partitions;
      assert MinuteKey(k.minute, k.node) in h.samples.main;
    }
    forall k | k in w.gpus ensures MinuteKey(k.minute, k.node) in w.main {
      assert Partition(GpuSamples, DayOfMinute(k.minute)) in h.partitions;
      assert MinuteKey(k.minute, k.node) in h.samples.main;
    }
  }

  /**
   * The drop loop. In whatever order the query lists partitions of one rank, it never meets a main-sample partition
   * that is still referenced, every step leaves each detail sample its main sample, and in the end exactly the
   * expired partitions are gone.
   */
  method DropExpiredPartitions(h: History, order: seq<Partition>, at: Instant) returns (refused: bool, r: History)
    requires WfHistory(h) && DropOrder(h.partitions, order)
    ensures !refused && r == Without(h, ExpiredOf(h, at)) && WfHistory(r)
  {
    hide MonthOfHour, MonthOf, DayOf, DayOfMinute, DropOne, Without;
    r := h;
    ghost var gone: set<Partition> := {};
    NothingGone(h);
    for i := 0 to |order|
      invariant gone == set j | 0 <= j < i && Expired(order[j], at) :: order[j]
      invariant r == Without(h, gone)
      invariant ChildrenGoFirst(h, gone, at)
      invariant WfHistory(r)
    {
      var p := order[i];
      if Expired(p, at) {
        NextMayGo(h, order, i, gone, at);
        if p.parent.NodeSamples? {
          NotReferenced(h, gone, p, at);
          if StillReferenced(r, p.index) {
            return true, r;
          }
        }
        DropOneMore(h, gone, p);
        r := DropOne(r, p);
        gone := gone + {p};
        StepKeepsForeignKeys(h, gone, at);
      }
    }
    assert gone == ExpiredOf(h, at);
    refused := false;
  }

  lemma NothingGone(h: History)
    ensures Without(h, {}) == h
  {
    var w := Without(h, {});
    assert w.samples.main == h.samples.main && w.samples.filesystems == h.samples.filesystems;
    assert w.samples.network == h.samples.network && w.samples.gpus == h.samples.gpus;
    assert w.hourly.nodes == h.hourly.nodes && w.hourly.filesystems == h.hourly.filesystems;
    assert w.hourly.network == h.hourly.network && w.hourly.gpus == h.hourly.gpus;
  }

  lemma NextMayGo(h: History, order: seq<Partition>, i: nat, gone: set<Partition>, at: Instant)
    requires DropOrder(h.partitions, order) && i < |order| && Expired(order[i], at)
    requires gone == set j | 0 <= j < i && Expired(order[j], at) :: order[j]
    requires ChildrenGoFirst(h, gone, at)
    ensures ChildrenGoFirst(h, gone + {order[i]}, at)
    ensures order[i].parent.NodeSamples? ==>
              forall q :: q in h.partitions && q.index == order[i].index && IsRaw(q.parent) && !q.parent.NodeSamples? ==> q in gone
  {
    hide MonthOf, DayOf;
    var p := order[i];
    if p.parent.NodeSamples? {
      forall q | q in h.partitions && q.index == p.index && IsRaw(q.parent) && !q.parent.NodeSamples? ensures q in gone {
        var j :| 0 <= j < |order| && order[j] == q;
        assert Expired(q, at);
        assert Rank(q.parent) < Rank(p.parent);
        assert j < i;
      }
    }
  }

  lemma NotReferenced(h: History, gone: set<Partition>, p: Partition, at: Instant)
    requires WfHistory(h) && p.parent.NodeSamples?
    requires forall q :: q in h.partitions && q.index == p.index && IsRaw(q.parent) && !q.parent.NodeSamples? ==> q in gone
    ensures !StillReferenced(Without(h, gone), p.index)
  {
    hide MonthOfHour, DayOfMinute;
    var w := Without(h, gone).samples;
    forall k | k in w.filesystems ensures DayOfMinute(k.minute) != p.index {
      assert Partition(FilesystemSamples, DayOfMinute(k.minute)) in h.partitions;
    }
    forall k | k in w.network ensures DayOfMinute(k.minute) != p.index {
      assert Partition(NetworkSamples, DayOfMinute(k.minute)) in h.partitions;
    }
    forall k | k in w.gpus ensures DayOfMinute(k.minute) != p.index {
      assert Partition(GpuSamples, DayOfMinute(k.minute)) in h.partitions;
    }
  }

  // ---- maintain_partitions ----

  ghost function Ensured(h: History, at: Instant): History {
    var day, month := DayOf(at), MonthOf(at);
    h.(partitions := h.partitions
       + (set d | day - 1 <= d <= day + 7 :: Partition(NodeSamples, d))
       + (set d | day - 1 <= d <= day + 7 :: Partition(FilesystemSamples, d))
       + (set d | day - 1 <= d <= day + 7 :: Partition(NetworkSamples, d))
       + (set d | day - 1 <= d <= day + 7 :: Partition(GpuSamples, d))
       + (set m | month - 1 <= m <= month + 2 :: Partition(NodeHourly, m))
       + (set m | month - 1 <= m <= month + 2 :: Partition(FilesystemHourly, m))
       + (set m | month - 1 <= m <= month + 2 :: Partition(NetworkHourly, m))
       + (set m | month - 1 <= m <= month + 2 :: Partition(GpuHourly, m)))
  }

  ghost function Maintained(h: History, at: Instant): History {
    Without(Ensured(h, at), ExpiredOf(Ensured(h, at), at))
  }

  /** What the query planner may answer: any admissible order. */
  method ListPartitions(partitions: set<Partition>) returns (order: seq<Partition>)
    ensures DropOrder(partitions, order)
  {
    order := [];
    var left := partitions;
    var rank := 1;
    while left != {}
      invariant left <= partitions
      invariant forall p :: p in order <==> p in partitions - left
      invariant forall i, j :: 0 <= i < j < |order| ==> order[i] != order[j]
      invariant forall i, j :: 0 <= i < j < |order| ==> Rank(order[i].parent) <= Rank(order[j].parent)
      invariant forall p :: p in order ==> Rank(p.parent) <= rank
      invariant forall p :: p in left ==> Rank(p.parent) >= rank
      invariant rank <= 5
      decreases left, 6 - rank
    {
      if p :| p in left && Rank(p.parent) == rank {
        order := order + [p];
        left := left - {p};
      } else {
        rank := rank + 1;
      }
    }
  }

  method MaintainPartitions(h: History, at: Instant) returns (r: History)
    requires WfHistory(h)
    ensures r == Maintained(h, at) && WfHistory(r)
  {
    hide MonthOfHour, MonthOf, DayOf, DayOfMinute, Without;
    var day, month := DayOf(at), MonthOf(at);
    var partitions := EnsureRawPartitions(h.partitions, day - 1, day + 7);
    partitions := EnsureHourlyPartitions(partitions, month - 1, month + 2);
    EnsuredHas(h, at);
    assert partitions == Ensured(h, at).partitions;
    var order := ListPartitions(partitions);
    var refused;
    refused, r := DropExpiredPartitions(h.(partitions := partitions), order, at);
  }

  lemma EnsuredHas(h: History, at: Instant)
    ensures forall p :: p in Ensured(h, at).partitions <==>
              p in h.partitions
              || (IsRaw(p.parent) && DayOf(at) - 1 <= p.index <= DayOf(at) + 7)
              || (!IsRaw(p.parent) && MonthOf(at) - 1 <= p.index <= MonthOf(at) + 2)
  {
    hide MonthOf, DayOf;
  }

  /** Exactly the rows whose index reached the cutoff are left, as they were. */
  ghost predicate KeptSince<K, V>(before: map<K, V>, after: map<K, V>, index: K -> int, cutoff: int) {
    && (forall k :: k in after ==> k in before && index(k) >= cutoff && after[k] == before[k])
    && (forall k :: k in before && index(k) >= cutoff ==> k in after)
  }

  function Cutoff(parent: Parent, at: Instant): int {
    if IsRaw(parent) then DayOf(at) - 90 else MonthOf(at) - 24
  }

  lemma ExpiryKeepsSince<K, V>(table: map<K, V>, index: K -> int, parent: Parent, h: History, at: Instant)
    requires forall k :: k in table ==> Partition(parent, index(k)) in h.partitions
    ensures KeptSince(table, RowsLeft(table, index, parent, ExpiredOf(h, at)), index, Cutoff(parent, at))
  {
    hide DayOf, MonthOf;
    var gone := ExpiredOf(h, at);
    forall k | k in table ensures Partition(parent, index(k)) in gone <==> index(k) < Cutoff(parent, at) {
      assert Partition(parent, index(k)) in h.partitions;
    }
  }

  /** Upkeep keeps the invariants, drops no row of the last 90 days or 24 months, and every older one. */
  lemma MaintainedRows(h: History, at: Instant)
    requires WfHistory(h)
    ensures WfHistory(Maintained(h, at))
    ensures KeptSince(h.samples.main, Maintained(h, at).samples.main, MinuteDay, DayOf(at) - 90)
    ensures KeptSince(h.samples.filesystems, Maintained(h, at).samples.filesystems, DetailDay, DayOf(at) - 90)
    ensures KeptSince(h.samples.network, Maintained(h, at).samples.network, DetailDay, DayOf(at) - 90)
    ensures KeptSince(h.samples.gpus, Maintained(h, at).samples.gpus, DetailDay, DayOf(at) - 90)
    ensures KeptSince(h.hourly.nodes, Maintained(h, at).hourly.nodes, NodeMonth, MonthOf(at) - 24)
    ensures KeptSince(h.hourly.filesystems, Maintained(h, at).hourly.filesystems, DetailMonth, MonthOf(at) - 24)
    ensures KeptSince(h.hourly.network, Maintained(h, at).hourly.network, DetailMonth, MonthOf(at) - 24)
    ensures KeptSince(h.hourly.gpus, Maintained(h, at).hourly.gpus, DetailMonth, MonthOf(at) - 24)
  {
    hide MonthOfHour, MonthOf, DayOf, DayOfMinute, KeptSince, RowsLeft;
    var e := Ensured(h, at);
    assert e.samples == h.samples && e.hourly == h.hourly && h.partitions <= e.partitions;
    hide Ensured;
    EnsuredWf(h, at);
    assert ChildrenGoFirst(e, ExpiredOf(e, at), at);
    StepKeepsForeignKeys(e, ExpiredOf(e, at), at);
    assert Maintained(h, at) == Without(e, ExpiredOf(e, at));
    hide Maintained, ExpiredOf;
    ExpiryKeepsSince(e.samples.main, MinuteDay, NodeSamples, e, at);
    ExpiryKeepsSince(e.samples.filesystems, DetailDay, FilesystemSamples, e, at);
    ExpiryKeepsSince(e.samples.network, DetailDay, NetworkSamples, e, at);
    ExpiryKeepsSince(e.samples.gpus, DetailDay, GpuSamples, e, at);
    ExpiryKeepsSince(e.hourly.nodes, NodeMonth, NodeHourly, e, at);
    ExpiryKeepsSince(e.hourly.filesystems, DetailMonth, FilesystemHourly, e, at);
    ExpiryKeepsSince(e.hourly.network, DetailMonth, NetworkHourly, e, at);
    ExpiryKeepsSince(e.hourly.gpus, DetailMonth, GpuHourly, e, at);
  }

  lemma EnsuredWf(h: History, at: Instant)
    requires WfHistory(h)
    ensures WfHistory(Ensured(h, at))
  {
    hide MonthOfHour, MonthOf, DayOf, DayOfMinute;
    var e := Ensured(h, at);
    assert e.samples == h.samples && e.hourly == h.hourly && h.partitions <= e.partitions;
    hide Ensured;
  }

  lemma KeptIsAlike<K, V>(before: map<K, V>, after: map<K, V>, index: K -> int, cutoff: int, k: K)
    requires KeptSince(before, after, index, cutoff) && index(k) >= cutoff
    ensures Alike(before, after, k)
  {}

  lemma MaintainedHours(h: History, at: Instant, hour: Hour)
    requires WfHistory(h) && MonthOfHour(hour) >= MonthOf(at) - 24
    ensures SameHourly(h.hourly, Maintained(h, at).hourly, hour)
  {
    MaintainedRows(h, at);
    var r := Maintained(h, at);
    hide WfHistory, Maintained, MonthOfHour, MonthOf, KeptSince, Alike;
    forall node ensures Alike(h.hourly.nodes, r.hourly.nodes, HourKey(hour, node)) {
      KeptIsAlike(h.hourly.nodes, r.hourly.nodes, NodeMonth, MonthOf(at) - 24, HourKey(hour, node));
    }
    forall node, id
      ensures Alike(h.hourly.filesystems, r.hourly.filesystems, HourDetail(hour, node, id))
      ensures Alike(h.hourly.network, r.hourly.network, HourDetail(hour, node, id))
      ensures Alike(h.hourly.gpus, r.hourly.gpus, HourDetail(hour, node, id))
    {
      var k := HourDetail(hour, node, id);
      KeptIsAlike(h.hourly.filesystems, r.hourly.filesystems, DetailMonth, MonthOf(at) - 24, k);
      KeptIsAlike(h.hourly.network, r.hourly.network, DetailMonth, MonthOf(at) - 24, k);
      KeptIsAlike(h.hourly.gpus, r.hourly.gpus, DetailMonth, MonthOf(at) - 24, k);
    }
  }

  // ---- accepted buckets have partitions ----

  /**
   * Any bucket `Validate` can accept at `t` has all its day partitions, from a cycle at `at` until the five minutes
   * of clock skew reach past the seventh day ahead; in particular during the six days after the cycle.
   */
  lemma AcceptedBucketsPartitioned(h: History, at: Instant, t: Instant, collectedAt: Instant)
    requires at <= t && t - Hours(24) <= collectedAt <= t + Minutes(5)
    ensures t <= at + Days(6) ==> DayOf(t + Minutes(5)) <= DayOf(at) + 7
    ensures DayOf(t + Minutes(5)) <= DayOf(at) + 7 ==> RawPartitions(DayOfMinute(MinuteOf(collectedAt))) <= Maintained(h, at).partitions
  {
    BucketKeepsHourAndDay(collectedAt);
    var d := DayOf(collectedAt);
    assert DayOf(at) - 1 <= d <= DayOf(t + Minutes(5));
    if DayOf(t + Minutes(5)) <= DayOf(at) + 7 {
      PartitionsAfterUpkeep(h, at, d);
    }
  }

  lemma PartitionsAfterUpkeep(h: History, at: Instant, d: Day)
    requires DayOf(at) - 1 <= d <= DayOf(at) + 7
    ensures RawPartitions(d) <= Maintained(h, at).partitions
  {
    hide MonthOf, DayOf, MonthOfHour, DayOfMinute;
    EnsuredHas(h, at);
    hide Ensured;
    forall p | p in RawPartitions(d) ensures p in Maintained(h, at).partitions {
      assert p in Ensured(h, at).partitions && !Expired(p, at);
    }
  }

  // ---- the cycle ----

  /** `rollup_hour` creates the hour's month partitions first. */
  function RolledUp(h: History, hour: Hour): History {
    History(h.samples, RollupHour(h.samples, h.hourly, hour), h.partitions + HourlyPartitions(MonthOfHour(hour)))
  }

  /** The offset loop, up to offset `n`. */
  function RolledUpTo(h: History, current: Hour, n: nat): History {
    if n == 0 then h else RolledUp(RolledUpTo(h, current, n - 1), current - n)
  }

  ghost function Cycled(h: History, at: Instant): History {
    RolledUpTo(Maintained(h, at), HourOf(at), 25)
  }

  method RunMaintenanceCycle(h: History, at: Instant) returns (r: History)
    requires WfHistory(h)
    ensures r == Cycled(h, at)
  {
    hide RolledUp, Maintained;
    var maintained := MaintainPartitions(h, at);
    r := maintained;
    var current := HourOf(at);
    for offset := 1 to 26
      invariant r == RolledUpTo(maintained, current, offset - 1)
    {
      r := RolledUp(r, current - offset);
    }
  }

  /** No day partition of a raw table lies beyond the day. */
  ghost predicate RawUpTo(partitions: set<Partition>, last: Day) {
    forall p :: p in partitions && IsRaw(p.parent) ==> p.index <= last
  }

  /** Upkeep creates days up to the seventh ahead and no further. */
  lemma MaintainedRawUpTo(h: History, at: Instant, last: Day)
    requires RawUpTo(h.partitions, last) && last <= DayOf(at) + 7
    ensures RawUpTo(Maintained(h, at).partitions, DayOf(at) + 7)
  {
    hide MonthOf, DayOf;
    EnsuredHas(h, at);
  }

  lemma {:induction false} RolledUpRawUpTo(h: History, current: Hour, n: nat, last: Day)
    requires RawUpTo(h.partitions, last)
    ensures RawUpTo(RolledUpTo(h, current, n).partitions, last)
  {
    hide MonthOfHour, RollupHour;
    if n > 0 {
      RolledUpRawUpTo(h, current, n - 1, last);
    }
  }

  lemma RolledUpWf(h: History, hour: Hour)
    requires WfHistory(h)
    ensures WfHistory(RolledUp(h, hour))
    ensures HourIs(RolledUp(h, hour).hourly, h.samples, hour)
    ensures forall other :: other != hour ==> SameHourly(h.hourly, RolledUp(h, hour).hourly, other)
  {
    RollupIsExact(h.samples, h.hourly, hour);
    var r := RolledUp(h, hour);
    hide RollupHour, HourIs, MonthOfHour, DayOfMinute;
    assert r.partitions == h.partitions + HourlyPartitions(MonthOfHour(hour));
    assert DetailsHaveMain(r.samples);
    RolledUpPartitioned(h, r, hour);
  }

  lemma RolledUpPartitioned(h: History, r: History, hour: Hour)
    requires RowsPartitioned(h) && r.samples == h.samples
    requires r.partitions == h.partitions + HourlyPartitions(MonthOfHour(hour))
    requires forall other :: other != hour ==> SameHourly(h.hourly, r.hourly, other)
    ensures RowsPartitioned(r)
  {
    hide MonthOfHour, DayOfMinute;
    forall k | k in r.hourly.nodes ensures Partition(NodeHourly, MonthOfHour(k.hour)) in r.partitions {
      if k.hour != hour {
        assert SameHourly(h.hourly, r.hourly, k.hour);
        assert Alike(h.hourly.nodes, r.hourly.nodes, HourKey(k.hour, k.node));
      }
    }
    forall k | k in r.hourly.filesystems ensures Partition(FilesystemHourly, MonthOfHour(k.hour)) in r.partitions {
      if k.hour != hour {
        assert SameHourly(h.hourly, r.hourly, k.hour);
        assert Alike(h.hourly.filesystems, r.hourly.filesystems, HourDetail(k.hour, k.node, k.resource));
      }
    }
    forall k | k in r.hourly.network ensures Partition(NetworkHourly, MonthOfHour(k.hour)) in r.partitions {
      if k.hour != hour {
        assert SameHourly(h.hourly, r.hourly, k.hour);
        assert Alike(h.hourly.network, r.hourly.network, HourDetail(k.hour, k.node, k.resource));
      }
    }
    forall k | k in r.hourly.gpus ensures Partition(GpuHourly, MonthOfHour(k.hour)) in r.partitions {
      if k.hour != hour {
        assert SameHourly(h.hourly, r.hourly, k.hour);
        assert Alike(h.hourly.gpus, r.hourly.gpus, HourDetail(k.hour, k.node, k.resource));
      }
    }
  }

  /** The hours of a window are exact for these samples, the others are those of `before`. */
  ghost predicate WindowExact(before: HourlyDb, after: HourlyDb, samples: SampleDb, first: Hour, end: Hour) {
    && (forall hour :: first <= hour < end ==> HourIs(after, samples, hour))
    && (forall hour :: !(first <= hour < end) ==> SameHourly(before, after, hour))
  }

  lemma WindowGrows(a: HourlyDb, b: HourlyDb, c: HourlyDb, samples: SampleDb, first: Hour, end: Hour)
    requires first < end && WindowExact(a, b, samples, first + 1, end) && HourIs(c, samples, first)
    requires forall other :: other != first ==> SameHourly(b, c, other)
    ensures WindowExact(a, c, samples, first, end)
  {
    hide HourIs, SameHourly;
    forall hour | first <= hour < end ensures HourIs(c, samples, hour) {
      if hour != first {
        HourIsKept(b, c, samples, hour);
      }
    }
    forall hour | !(first <= hour < end) ensures SameHourly(a, c, hour) {
      SameHourlyTransitive(a, b, c, hour);
    }
  }

  lemma {:induction false} RolledUpToFacts(h: History, current: Hour, n: nat)
    requires WfHistory(h)
    ensures var r := RolledUpTo(h, current, n);
      && WfHistory(r) && r.samples == h.samples && h.partitions <= r.partitions
      && WindowExact(h.hourly, r.hourly, h.samples, current - n, current)
  {
    hide HourIs, SameHourly, WfHistory, MonthOfHour, RollupHour, WindowExact;
    if n == 0 {
      NothingRolledUp(h.hourly, h.samples, current);
    } else {
      RolledUpToFacts(h, current, n - 1);
      var before, r := RolledUpTo(h, current, n - 1), RolledUpTo(h, current, n);
      assert r == RolledUp(before, current - n);
      assert r.samples == before.samples && before.partitions <= r.partitions;
      hide RolledUpTo, RolledUp;
      RolledUpWf(before, current - n);
      WindowGrows(h.hourly, before.hourly, r.hourly, h.samples, current - n, current);
    }
  }

  lemma NothingRolledUp(a: HourlyDb, samples: SampleDb, current: Hour)
    ensures WindowExact(a, a, samples, current, current)
  {
    forall hour ensures SameHourly(a, a, hour) {
      SameHourlyReflexive(a, hour);
    }
  }

  lemma SameHourlyReflexive(a: HourlyDb, hour: Hour)
    ensures SameHourly(a, a, hour)
  {}

  lemma SameHourlyTransitive(a: HourlyDb, b: HourlyDb, c: HourlyDb, hour: Hour)
    requires SameHourly(a, b, hour) && SameHourly(b, c, hour)
    ensures SameHourly(a, c, hour)
  {
    assert forall node :: Alike(a.nodes, b.nodes, HourKey(hour, node)) && Alike(b.nodes, c.nodes, HourKey(hour, node));
    assert forall node, id :: Alike(a.filesystems, b.filesystems, HourDetail(hour, node, id)) && Alike(b.filesystems, c.filesystems, HourDetail(hour, node, id));
    assert forall node, id :: Alike(a.network, b.network, HourDetail(hour, node, id)) && Alike(b.network, c.network, HourDetail(hour, node, id));
    assert forall node, id :: Alike(a.gpus, b.gpus, HourDetail(hour, node, id)) && Alike(b.gpus, c.gpus, HourDetail(hour, node, id));
  }

  /**
   * A cycle makes the 25 hours before the current one exact for the samples it leaves, and changes no other hour
   * whose month it does not drop.
   */
  lemma CycleFacts(h: History, at: Instant)
    requires WfHistory(h)
    ensures var r := Cycled(h, at);
      && WfHistory(r) && r.samples == Maintained(h, at).samples
      && Maintained(h, at).partitions <= r.partitions
      && (forall hour :: HourOf(at) - 25 <= hour < HourOf(at) ==> HourIs(r.hourly, r.samples, hour))
      && (forall hour :: !(HourOf(at) - 25 <= hour < HourOf(at)) && MonthOfHour(hour) >= MonthOf(at) - 24 ==>
            SameHourly(h.hourly, r.hourly, hour))
  {
    MaintainedRows(h, at);
    var m := Maintained(h, at);
    hide HourIs, SameHourly, MonthOfHour, MonthOf, Maintained, KeptSince, WfHistory, RolledUpTo;
    RolledUpToFacts(m, HourOf(at), 25);
    var r := Cycled(h, at);
    forall hour | !(HourOf(at) - 25 <= hour < HourOf(at)) && MonthOfHour(hour) >= MonthOf(at) - 24
      ensures SameHourly(h.hourly, r.hourly, hour)
    {
      MaintainedHours(h, at, hour);
      SameHourlyTransitive(h.hourly, m.hourly, r.hourly, hour);
    }
  }
}
