/** The raw history query and its result (internal/store/query.go:750-837). Numbers are exact. */
module HistoryQueries {
  import opened Text
  import opened Clock
  import opened Reports
  import opened InventoryTables
  import opened NetworkTables
  import opened Samples
  import opened Rollups

  // ---- GROUP BY ----

  function RowsAt<R>(rows: seq<R>, bucket: R -> Minute, m: Minute): seq<R> {
    if rows == [] then []
    else
      var n := |rows| - 1;
      RowsAt(rows[..n], bucket, m) + if bucket(rows[n]) == m then [rows[n]] else []
  }

  function Fold<R, A>(rows: seq<R>, one: R -> A, add: (A, R) -> A): A
    requires rows != []
  {
    var n := |rows| - 1;
    if n == 0 then one(rows[0]) else add(Fold(rows[..n], one, add), rows[n])
  }

  /** One pass over the table, one accumulator per bucket. */
  function GroupBy<R, A>(rows: seq<R>, bucket: R -> Minute, one: R -> A, add: (A, R) -> A): map<Minute, A> {
    if rows == [] then map[]
    else
      var n := |rows| - 1;
      var earlier, m := GroupBy(rows[..n], bucket, one, add), bucket(rows[n]);
      earlier[m := if m in earlier then add(earlier[m], rows[n]) else one(rows[n])]
  }

  lemma FoldMore<R, A>(rows: seq<R>, r: R, one: R -> A, add: (A, R) -> A)
    ensures Fold(rows + [r], one, add) == if rows == [] then one(r) else add(Fold(rows, one, add), r)
  {
    assert (rows + [r])[..|rows|] == rows;
  }

  /** A bucket's group is the fold of the rows of that bucket; buckets without rows have no group. */
  lemma {:induction false} GroupIsFold<R, A>(rows: seq<R>, bucket: R -> Minute, one: R -> A, add: (A, R) -> A, m: Minute)
    ensures m in GroupBy(rows, bucket, one, add) <==> RowsAt(rows, bucket, m) != []
    ensures m in GroupBy(rows, bucket, one, add) ==> GroupBy(rows, bucket, one, add)[m] == Fold(RowsAt(rows, bucket, m), one, add)
  {
    if rows != [] {
      var n := |rows| - 1;
      GroupIsFold(rows[..n], bucket, one, add, m);
      assert bucket(rows[n]) != m ==> RowsAt(rows, bucket, m) == RowsAt(rows[..n], bucket, m);
      FoldMore(RowsAt(rows[..n], bucket, m), rows[n], one, add);
    }
  }

  // ---- LEFT JOIN ----

  datatype Grouped<A> = Grouped(bucket: Minute, value: A)

  /** A listing of the groups, in any order. */
  ghost predicate Lists<A>(groups: seq<Grouped<A>>, table: map<Minute, A>) {
    && (forall i :: 0 <= i < |groups| ==> groups[i].bucket in table && groups[i].value == table[groups[i].bucket])
    && (forall i, j :: 0 <= i < j < |groups| ==> groups[i].bucket != groups[j].bucket)
    && (forall m :: m in table ==> exists i :: 0 <= i < |groups| && groups[i].bucket == m)
  }

  function Matches<A>(groups: seq<Grouped<A>>, m: Minute): seq<A> {
    if groups == [] then []
    else
      var n := |groups| - 1;
      Matches(groups[..n], m) + if groups[n].bucket == m then [groups[n].value] else []
  }

  /** One joined row for each match, or one without a partner. */
  function LeftJoin<A>(groups: seq<Grouped<A>>, m: Minute): seq<Option<A>> {
    var found := Matches(groups, m);
    if found == [] then [None] else seq(|found|, i requires 0 <= i < |found| => Some(found[i]))
  }

  lemma {:induction false} MatchesOf<A>(groups: seq<Grouped<A>>, m: Minute)
    requires forall i, j :: 0 <= i < j < |groups| ==> groups[i].bucket != groups[j].bucket
    ensures forall i :: 0 <= i < |groups| && groups[i].bucket == m ==> Matches(groups, m) == [groups[i].value]
    ensures (forall i :: 0 <= i < |groups| ==> groups[i].bucket != m) ==> Matches(groups, m) == []
  {
    if groups != [] {
      var n := |groups| - 1;
      MatchesOf(groups[..n], m);
      assert forall i :: 0 <= i < n ==> groups[..n][i] == groups[i];
    }
  }

  /** Joining a sample to pre-aggregated groups gives exactly one row, because a bucket has one group. */
  lemma OneJoinedRow<A>(groups: seq<Grouped<A>>, table: map<Minute, A>, m: Minute)
    requires Lists(groups, table)
    ensures LeftJoin(groups, m) == [if m in table then Some(table[m]) else None]
  {
    MatchesOf(groups, m);
    if m in table {
      var i :| 0 <= i < |groups| && groups[i].bucket == m;
      assert Matches(groups, m) == [groups[i].value];
    }
  }

  // ---- the raw query ----

  /** A filesystem sample joined to its device; `readOnly` is the mount option the query filters on. */
  datatype FilesystemRow = FilesystemRow(minute: Minute, usedPercent: real, readOnly: bool)

  datatype NetworkRow = NetworkRow(minute: Minute, rx: nat, tx: nat)

  datatype MainRow = MainRow(minute: Minute, cpu: real, memory: real, read: nat, written: nat, seconds: int)

  datatype Tables = Tables(main: seq<MainRow>, filesystems: seq<FilesystemRow>, network: seq<NetworkRow>)

  datatype MinutePoint = MinutePoint(
    bucket: Minute, cpu: real, memory: real, disk: real, read: nat, written: nat, rx: nat, tx: nat, seconds: int)

  datatype Traffic = Traffic(rx: nat, tx: nat)

  function Writable(rows: seq<FilesystemRow>): seq<FilesystemRow> {
    if rows == [] then []
    else
      var n := |rows| - 1;
      Writable(rows[..n]) + if rows[n].readOnly then [] else [rows[n]]
  }

  function Used(r: FilesystemRow): real { r.usedPercent }

  function Fuller(a: real, r: FilesystemRow): real { if r.usedPercent > a then r.usedPercent else a }

  function TrafficOf(r: NetworkRow): Traffic { Traffic(r.rx, r.tx) }

  function MoreTraffic(t: Traffic, r: NetworkRow): Traffic { Traffic(t.rx + r.rx, t.tx + r.tx) }

  function FilesystemMinute(r: FilesystemRow): Minute { r.minute }

  function NetworkMinute(r: NetworkRow): Minute { r.minute }

  /** `date_trunc('hour', t)` plus the whole intervals of the minute within its hour. */
  function HourRelative(m: Minute, k: nat): Minute
    requires k > 0
  {
    (m / 60) * 60 + ((m % 60) / k) * k
  }

  function PointOf(r: MainRow, k: nat, disk: Option<real>, traffic: Option<Traffic>): MinutePoint
    requires k > 0
  {
    MinutePoint(
      HourRelative(r.minute, k), r.cpu, r.memory, if disk.Some? then disk.value else 0.0, r.read, r.written,
      if traffic.Some? then traffic.value.rx else 0, if traffic.Some? then traffic.value.tx else 0, r.seconds)
  }

  /** The query: aggregate once per bucket, then join; `disks` and `nets` are the results of its two subqueries. */
  function Joined(t: Tables, k: nat, disks: seq<Grouped<real>>, nets: seq<Grouped<Traffic>>): seq<MinutePoint>
    requires k > 0
    decreases |t.main|
  {
    if t.main == [] then []
    else
      var n := |t.main| - 1;
      var r := t.main[n];
      Joined(t.(main := t.main[..n]), k, disks, nets)
      + Pairs(r, k, LeftJoin(disks, r.minute), LeftJoin(nets, r.minute))
  }

  /** Every pair of joined partners is a row of the result. */
  function Pairs(r: MainRow, k: nat, disks: seq<Option<real>>, nets: seq<Option<Traffic>>): seq<MinutePoint>
    requires k > 0
  {
    if disks == [] then []
    else
      var n := |disks| - 1;
      Pairs(r, k, disks[..n], nets) + seq(|nets|, i requires 0 <= i < |nets| => PointOf(r, k, disks[n], nets[i]))
  }

  /** What it stands for: look at the rows of each sample's own minute. */
  function Direct(t: Tables, k: nat): seq<MinutePoint>
    requires k > 0
    decreases |t.main|
  {
    if t.main == [] then []
    else
      var n := |t.main| - 1;
      var r := t.main[n];
      var filesystems := RowsAt(Writable(t.filesystems), FilesystemMinute, r.minute);
      var network := RowsAt(t.network, NetworkMinute, r.minute);
      Direct(t.(main := t.main[..n]), k)
      + [PointOf(r, k,
           if filesystems == [] then None else Some(Fold(filesystems, Used, Fuller)),
           if network == [] then None else Some(Fold(network, TrafficOf, MoreTraffic)))]
  }

  /** The pre-aggregated query means the same as scanning each minute directly. */
  lemma {:induction false} PreAggregationIsDirect(t: Tables, k: nat, disks: seq<Grouped<real>>, nets: seq<Grouped<Traffic>>)
    requires k > 0
    requires Lists(disks, GroupBy(Writable(t.filesystems), FilesystemMinute, Used, Fuller))
    requires Lists(nets, GroupBy(t.network, NetworkMinute, TrafficOf, MoreTraffic))
    ensures Joined(t, k, disks, nets) == Direct(t, k)
    decreases |t.main|
  {
    hide Lists, GroupBy, Fold, LeftJoin, PointOf, RowsAt;
    if t.main != [] {
      var n := |t.main| - 1;
      var r := t.main[n];
      PreAggregationIsDirect(t.(main := t.main[..n]), k, disks, nets);
      var d, g := GroupBy(Writable(t.filesystems), FilesystemMinute, Used, Fuller), GroupBy(t.network, NetworkMinute, TrafficOf, MoreTraffic);
      OneJoinedRow(disks, d, r.minute);
      OneJoinedRow(nets, g, r.minute);
      GroupIsFold(Writable(t.filesystems), FilesystemMinute, Used, Fuller, r.minute);
      GroupIsFold(t.network, NetworkMinute, TrafficOf, MoreTraffic, r.minute);
      var disk := if r.minute in d then Some(d[r.minute]) else None;
      var traffic := if r.minute in g then Some(g[r.minute]) else None;
      OnePair(r, k, disk, traffic);
    }
  }

  lemma OnePair(r: MainRow, k: nat, disk: Option<real>, traffic: Option<Traffic>)
    requires k > 0
    ensures Pairs(r, k, [disk], [traffic]) == [PointOf(r, k, disk, traffic)]
  {
    assert [disk][..0] == [];
  }

  // ---- truncation ----

  /** The hour-relative truncation is the absolute floor to `k` minutes exactly when `k` divides the hour. */
  lemma TruncationIsFloorIff(k: nat)
    requires k > 0
    ensures (forall m :: HourRelative(m, k) == m / k * k) <==> 60 % k == 0
  {
    if 60 % k == 0 {
      forall m ensures HourRelative(m, k) == m / k * k {
        FloorInHour(m, k, 60 / k);
      }
    } else {
      assert HourRelative(60, k) == 60;
      assert 60 / k * k == 60 - 60 % k;
    }
  }

  lemma FloorInHour(m: Minute, k: nat, q: nat)
    requires k > 0 && 60 == k * q
    ensures HourRelative(m, k) == m / k * k
  {
    var h, r := m / 60, m % 60;
    var s := r / k;
    assert m == h * 60 + r && r == s * k + r % k;
    assert h * 60 == (h * q) * k by {
      assert h * 60 == h * (k * q) == (h * q) * k;
    }
    DivisionIs(m, k, h * q + s, r % k);
    assert (h * q + s) * k == (h * q) * k + s * k;
  }

  lemma AtLeastOnce(x: int, k: nat)
    requires x > 0
    ensures x * k >= k
  {
    assert x * k == (x - 1) * k + k;
  }

  lemma DivisionIs(m: int, k: nat, d: int, r: nat)
    requires k > 0 && r < k && m == d * k + r
    ensures m / k == d
  {
    var e := m / k;
    var p := m % k;
    assert m == e * k + p;
    assert (d - e) * k == p - r;
    if e < d {
      AtLeastOnce(d - e, k);
    } else if e > d {
      assert (e - d) * k == r - p;
      AtLeastOnce(e - d, k);
    }
  }

  // ---- rates ----

  /**
   * One column of one point of the answer: the deltas and the seconds of its bucket. An average is a rate, too: of a
   * column over one second for each sample.
   */
  datatype RatePoint = RatePoint(bucket: Minute, delta: real, seconds: int)

  /** Rate per second; a bucket always has seconds, because every sample has at least one. */
  function Rate(p: RatePoint): real {
    if p.seconds == 0 then 0.0 else p.delta / (p.seconds as real)
  }

  datatype Sampled = Sampled(bucket: Minute, delta: real, seconds: int)

  function AddTo(points: seq<RatePoint>, s: Sampled): seq<RatePoint> {
    if points == [] then [RatePoint(s.bucket, s.delta, s.seconds)]
    else if points[0].bucket == s.bucket then [RatePoint(s.bucket, points[0].delta + s.delta, points[0].seconds + s.seconds)] + points[1..]
    else [points[0]] + AddTo(points[1..], s)
  }

  function RatePoints(samples: seq<Sampled>): seq<RatePoint> {
    if samples == [] then [] else AddTo(RatePoints(samples[..|samples| - 1]), samples[|samples| - 1])
  }

  function TotalDelta(samples: seq<Sampled>): real {
    if samples == [] then 0.0 else TotalDelta(samples[..|samples| - 1]) + samples[|samples| - 1].delta
  }

  function Back(p: RatePoint): real { Rate(p) * (p.seconds as real) }

  /** Each rate times the seconds of its own bucket, added up. */
  function TimesSeconds(points: seq<RatePoint>): real {
    if points == [] then 0.0 else Back(points[0]) + TimesSeconds(points[1..])
  }

  ghost predicate HaveSeconds(points: seq<RatePoint>) {
    forall i :: 0 <= i < |points| ==> points[i].seconds > 0
  }

  lemma RateTimesSeconds(p: RatePoint)
    requires p.seconds > 0
    ensures Back(p) == p.delta
  {}

  lemma {:induction false} AddToConserves(points: seq<RatePoint>, s: Sampled)
    requires HaveSeconds(points) && s.seconds > 0
    ensures HaveSeconds(AddTo(points, s))
    ensures TimesSeconds(AddTo(points, s)) == TimesSeconds(points) + s.delta
  {
    hide Back;
    var r := AddTo(points, s);
    RateTimesSeconds(r[0]);
    if points != [] {
      RateTimesSeconds(points[0]);
      if points[0].bucket == s.bucket {
        assert r[1..] == points[1..];
      } else {
        assert r[1..] == AddTo(points[1..], s);
        AddToConserves(points[1..], s);
      }
    }
  }

  /** However the samples fall into buckets, the rates times their seconds add up to all deltas of the window. */
  lemma {:induction false} RatesConserveDeltas(samples: seq<Sampled>)
    requires forall i :: 0 <= i < |samples| ==> samples[i].seconds > 0
    ensures HaveSeconds(RatePoints(samples))
    ensures TimesSeconds(RatePoints(samples)) == TotalDelta(samples)
  {
    if samples != [] {
      var n := |samples| - 1;
      RatesConserveDeltas(samples[..n]);
      AddToConserves(RatePoints(samples[..n]), samples[n]);
    }
  }

  function DeltaAt(samples: seq<Sampled>, bucket: Minute): real {
    if samples == [] then 0.0
    else
      var n := |samples| - 1;
      DeltaAt(samples[..n], bucket) + if samples[n].bucket == bucket then samples[n].delta else 0.0
  }

  function SecondsAt(samples: seq<Sampled>, bucket: Minute): int {
    if samples == [] then 0
    else
      var n := |samples| - 1;
      SecondsAt(samples[..n], bucket) + if samples[n].bucket == bucket then samples[n].seconds else 0
  }

  ghost predicate DistinctBuckets(points: seq<RatePoint>) {
    forall i, j :: 0 <= i < j < |points| ==> points[i].bucket != points[j].bucket
  }

  ghost predicate HasBucket(points: seq<RatePoint>, bucket: Minute) {
    exists i :: 0 <= i < |points| && points[i].bucket == bucket
  }

  lemma {:induction false} AddToBuckets(points: seq<RatePoint>, s: Sampled)
    requires DistinctBuckets(points)
    ensures DistinctBuckets(AddTo(points, s))
    ensures forall b :: HasBucket(AddTo(points, s), b) <==> HasBucket(points, b) || b == s.bucket
  {
    var r := AddTo(points, s);
    if points == [] {
      assert r[0].bucket == s.bucket;
    } else {
      var rest := points[1..];
      assert points == [points[0]] + rest;
      FirstOrRest(points[0], rest);
      if points[0].bucket == s.bucket {
        FirstOrRest(r[0], rest);
      } else {
        var more := AddTo(rest, s);
        AddToBuckets(rest, s);
        hide AddTo;
        assert r == [points[0]] + more;
        FirstOrRest(points[0], more);
      }
    }
  }

  lemma FirstOrRest(p: RatePoint, rest: seq<RatePoint>)
    ensures forall b :: HasBucket([p] + rest, b) <==> p.bucket == b || HasBucket(rest, b)
    ensures DistinctBuckets([p] + rest) <==> DistinctBuckets(rest) && !HasBucket(rest, p.bucket)
  {
    var all := [p] + rest;
    assert forall i :: 0 <= i < |rest| ==> all[i + 1] == rest[i];
    assert all[0] == p;
    forall b ensures HasBucket(all, b) <==> p.bucket == b || HasBucket(rest, b) {
      if i :| 0 <= i < |all| && all[i].bucket == b {
        assert i > 0 ==> rest[i - 1].bucket == b;
      }
    }
    if DistinctBuckets(all) {
      forall i, j | 0 <= i < j < |rest| ensures rest[i].bucket != rest[j].bucket {
        assert all[i + 1].bucket != all[j + 1].bucket;
      }
      forall i | 0 <= i < |rest| ensures rest[i].bucket != p.bucket {
        assert all[0].bucket != all[i + 1].bucket;
      }
    }
    if DistinctBuckets(rest) && !HasBucket(rest, p.bucket) {
      forall i, j | 0 <= i < j < |all| ensures all[i].bucket != all[j].bucket {
        assert rest[j - 1].bucket == all[j].bucket;
      }
    }
  }

  /** The sample's own point grows, or begins; every other point stays. */
  lemma {:induction false} AddToMembers(points: seq<RatePoint>, s: Sampled, p: RatePoint)
    requires p in points
    ensures p.bucket != s.bucket ==> p in AddTo(points, s)
    ensures p.bucket == s.bucket && DistinctBuckets(points) ==>
              RatePoint(s.bucket, p.delta + s.delta, p.seconds + s.seconds) in AddTo(points, s)
  {
    var rest := points[1..];
    assert points == [points[0]] + rest;
    if p in rest {
      AddToMembers(rest, s, p);
      var i :| 0 <= i < |rest| && rest[i] == p;
      assert points[i + 1] == p;
      if DistinctBuckets(points) {
        FirstOrRest(points[0], rest);
      }
    }
  }

  lemma {:induction false} AddToBegins(points: seq<RatePoint>, s: Sampled)
    requires !HasBucket(points, s.bucket)
    ensures RatePoint(s.bucket, s.delta, s.seconds) in AddTo(points, s)
  {
    if points != [] {
      assert points == [points[0]] + points[1..];
      FirstOrRest(points[0], points[1..]);
      AddToBegins(points[1..], s);
    }
  }

  /** The points are the buckets of the samples, each once, with the sums of exactly its samples. */
  ghost predicate PointsAre(points: seq<RatePoint>, samples: seq<Sampled>) {
    && DistinctBuckets(points)
    && (forall p :: p in points ==> p.delta == DeltaAt(samples, p.bucket) && p.seconds == SecondsAt(samples, p.bucket))
    && (forall s :: s in samples ==> HasBucket(points, s.bucket))
  }

  lemma {:induction false} NoSampleNoSum(samples: seq<Sampled>, bucket: Minute)
    requires forall s :: s in samples ==> s.bucket != bucket
    ensures DeltaAt(samples, bucket) == 0.0 && SecondsAt(samples, bucket) == 0
  {
    if samples != [] {
      NoSampleNoSum(samples[..|samples| - 1], bucket);
    }
  }

  lemma {:induction false} RatePointsAre(samples: seq<Sampled>)
    ensures PointsAre(RatePoints(samples), samples)
  {
    if samples != [] {
      var n := |samples| - 1;
      var before, s := RatePoints(samples[..n]), samples[n];
      RatePointsAre(samples[..n]);
      AddToBuckets(before, s);
      if !HasBucket(before, s.bucket) {
        NoSampleNoSum(samples[..n], s.bucket);
      }
      var r := AddTo(before, s);
      forall p | p in r ensures p.delta == DeltaAt(samples, p.bucket) && p.seconds == SecondsAt(samples, p.bucket) {
        SumsAt(before, r, samples, p);
      }
    }
  }

  lemma SumsAt(before: seq<RatePoint>, r: seq<RatePoint>, samples: seq<Sampled>, p: RatePoint)
    requires samples != [] && PointsAre(before, samples[..|samples| - 1]) && r == AddTo(before, samples[|samples| - 1]) && p in r
    requires !HasBucket(before, samples[|samples| - 1].bucket) ==>
               DeltaAt(samples[..|samples| - 1], samples[|samples| - 1].bucket) == 0.0
               && SecondsAt(samples[..|samples| - 1], samples[|samples| - 1].bucket) == 0
    ensures p.delta == DeltaAt(samples, p.bucket) && p.seconds == SecondsAt(samples, p.bucket)
  {
    hide AddTo, DistinctBuckets;
    var s := samples[|samples| - 1];
    AddToBuckets(before, s);
    assert HasBucket(r, p.bucket) by { var k :| 0 <= k < |r| && r[k] == p; }
    if HasBucket(before, p.bucket) {
      var i :| 0 <= i < |before| && before[i].bucket == p.bucket;
      AddToMembers(before, s, before[i]);
      var q := if p.bucket == s.bucket then RatePoint(s.bucket, before[i].delta + s.delta, before[i].seconds + s.seconds) else before[i];
      SameBucketSamePoint(r, p, q);
    } else {
      AddToBegins(before, s);
      SameBucketSamePoint(r, p, RatePoint(s.bucket, s.delta, s.seconds));
    }
  }

  lemma SameBucketSamePoint(points: seq<RatePoint>, p: RatePoint, q: RatePoint)
    requires DistinctBuckets(points) && p in points && q in points && p.bucket == q.bucket
    ensures p == q
  {}

  // ---- the four rates over a window ----

  ghost predicate Distinct<T>(s: seq<T>) {
    forall i, j :: 0 <= i < j < |s| ==> s[i] != s[j]
  }

  function Rx(r: NetworkRow): nat { r.rx }

  function Tx(r: NetworkRow): nat { r.tx }

  function Read(r: MainRow): nat { r.read }

  function Written(r: MainRow): nat { r.written }

  function Total<R>(rows: seq<R>, column: R -> nat): nat {
    if rows == [] then 0 else Total(rows[..|rows| - 1], column) + column(rows[|rows| - 1])
  }

  /** What the joined minutes show of a network column. */
  function Shown(minutes: seq<Minute>, rows: seq<NetworkRow>, column: NetworkRow -> nat): nat {
    if minutes == [] then 0
    else Shown(minutes[..|minutes| - 1], rows, column) + Total(RowsAt(rows, NetworkMinute, minutes[|minutes| - 1]), column)
  }

  lemma {:induction false} FoldIsSum(rows: seq<NetworkRow>)
    requires rows != []
    ensures Fold(rows, TrafficOf, MoreTraffic) == Traffic(Total(rows, Rx), Total(rows, Tx))
  {
    if |rows| > 1 {
      FoldIsSum(rows[..|rows| - 1]);
    } else {
      assert rows[..0] == [];
    }
  }

  lemma {:induction false} NothingShown(minutes: seq<Minute>, column: NetworkRow -> nat)
    ensures Shown(minutes, [], column) == 0
  {
    if minutes != [] {
      NothingShown(minutes[..|minutes| - 1], column);
    }
  }

  lemma {:induction false} OneMoreRowShown(minutes: seq<Minute>, rows: seq<NetworkRow>, r: NetworkRow, column: NetworkRow -> nat)
    requires Distinct(minutes)
    ensures Shown(minutes, rows + [r], column) == Shown(minutes, rows, column) + if r.minute in minutes then column(r) else 0
  {
    if minutes != [] {
      var n := |minutes| - 1;
      OneMoreRowShown(minutes[..n], rows, r, column);
      RowsAtMore(rows, r, minutes[n]);
      TotalMore(RowsAt(rows, NetworkMinute, minutes[n]), r, column);
      hide RowsAt, Total;
      assert minutes == minutes[..n] + [minutes[n]];
      assert r.minute == minutes[n] ==> r.minute !in minutes[..n];
    }
  }

  lemma RowsAtMore(rows: seq<NetworkRow>, r: NetworkRow, m: Minute)
    ensures RowsAt(rows + [r], NetworkMinute, m) == RowsAt(rows, NetworkMinute, m) + if r.minute == m then [r] else []
  {
    assert (rows + [r])[..|rows|] == rows;
  }

  lemma TotalMore<R>(rows: seq<R>, r: R, column: R -> nat)
    ensures Total(rows + [r], column) == Total(rows, column) + column(r)
    ensures Total(rows + [], column) == Total(rows, column)
  {
    assert (rows + [r])[..|rows|] == rows;
    assert rows + [] == rows;
  }

  /** When every network row has one of the minutes, the minutes show all of its columns. */
  lemma {:induction false} AllTrafficShown(minutes: seq<Minute>, rows: seq<NetworkRow>, column: NetworkRow -> nat)
    requires Distinct(minutes) && forall i :: 0 <= i < |rows| ==> rows[i].minute in minutes
    ensures Shown(minutes, rows, column) == Total(rows, column)
  {
    if rows == [] {
      NothingShown(minutes, column);
    } else {
      var n := |rows| - 1;
      assert Total(rows, column) == Total(rows[..n], column) + column(rows[n]);
      hide Shown, Total;
      AllTrafficShown(minutes, rows[..n], column);
      OneMoreRowShown(minutes, rows[..n], rows[n], column);
      assert rows == rows[..n] + [rows[n]];
    }
  }

  /** One rate column of the answer, before it is grouped. */
  function ColumnOf(points: seq<MinutePoint>, column: MinutePoint -> nat): (r: seq<Sampled>)
    ensures |r| == |points|
  {
    seq(|points|, i requires 0 <= i < |points| => Sampled(points[i].bucket, column(points[i]) as real, points[i].seconds))
  }

  function PointRx(p: MinutePoint): nat { p.rx }

  function PointTx(p: MinutePoint): nat { p.tx }

  function PointRead(p: MinutePoint): nat { p.read }

  function PointWritten(p: MinutePoint): nat { p.written }

  function MinutesOf(main: seq<MainRow>): (r: seq<Minute>)
    ensures |r| == |main|
  {
    seq(|main|, i requires 0 <= i < |main| => main[i].minute)
  }

  lemma ColumnMore(points: seq<MinutePoint>, p: MinutePoint, column: MinutePoint -> nat)
    ensures TotalDelta(ColumnOf(points + [p], column)) == TotalDelta(ColumnOf(points, column)) + column(p) as real
  {
    assert ColumnOf(points + [p], column)[..|points|] == ColumnOf(points, column);
  }

  ghost predicate ShowsAll(points: seq<MinutePoint>, t: Tables) {
    && TotalDelta(ColumnOf(points, PointRx)) == Shown(MinutesOf(t.main), t.network, Rx) as real
    && TotalDelta(ColumnOf(points, PointTx)) == Shown(MinutesOf(t.main), t.network, Tx) as real
    && TotalDelta(ColumnOf(points, PointRead)) == Total(t.main, Read) as real
    && TotalDelta(ColumnOf(points, PointWritten)) == Total(t.main, Written) as real
  }

  /** What the last minute contributes to the answer. */
  ghost predicate LastPoint(t: Tables, p: MinutePoint)
    requires t.main != []
  {
    var r := t.main[|t.main| - 1];
    var network := RowsAt(t.network, NetworkMinute, r.minute);
    && p.seconds == r.seconds && p.read == r.read && p.written == r.written
    && p.rx == Total(network, Rx) && p.tx == Total(network, Tx)
  }

  lemma DirectStep(t: Tables, k: nat) returns (p: MinutePoint)
    requires k > 0 && t.main != []
    ensures Direct(t, k) == Direct(t.(main := t.main[..|t.main| - 1]), k) + [p] && LastPoint(t, p)
  {
    hide Fold, RowsAt, Writable, HourRelative;
    var n := |t.main| - 1;
    var network := RowsAt(t.network, NetworkMinute, t.main[n].minute);
    if network != [] {
      FoldIsSum(network);
    }
    p := Direct(t, k)[|Direct(t, k)| - 1];
  }

  lemma ShowsMore(t: Tables, points: seq<MinutePoint>, p: MinutePoint)
    requires t.main != [] && LastPoint(t, p) && ShowsAll(points, t.(main := t.main[..|t.main| - 1]))
    ensures ShowsAll(points + [p], t)
  {
    hide RowsAt, ColumnOf, TotalDelta;
    var n := |t.main| - 1;
    assert MinutesOf(t.main)[..n] == MinutesOf(t.main[..n]);
    ColumnMore(points, p, PointRx);
    ColumnMore(points, p, PointTx);
    ColumnMore(points, p, PointRead);
    ColumnMore(points, p, PointWritten);
  }

  lemma {:induction false} DirectShows(t: Tables, k: nat)
    requires k > 0
    ensures |Direct(t, k)| == |t.main| && forall i :: 0 <= i < |t.main| ==> Direct(t, k)[i].seconds == t.main[i].seconds
    ensures ShowsAll(Direct(t, k), t)
    decreases |t.main|
  {
    if t.main == [] {
      NothingYet(t, k);
    } else {
      hide Direct, ShowsAll;
      var u := t.(main := t.main[..|t.main| - 1]);
      DirectShows(u, k);
      var p := DirectStep(t, k);
      ShowsMore(t, Direct(u, k), p);
    }
  }

  lemma NothingYet(t: Tables, k: nat)
    requires k > 0 && t.main == []
    ensures Direct(t, k) == [] && ShowsAll([], t)
  {}

  ghost predicate Conserves(points: seq<MinutePoint>, column: MinutePoint -> nat, total: nat) {
    TimesSeconds(RatePoints(ColumnOf(points, column))) == total as real
  }

  /**
   * Each of the four rates of the answer, times the seconds of its bucket, adds up to the column's total over the
   * window; nothing is lost in the grouping or in the joins.
   */
  lemma WindowConserved(t: Tables, k: nat, disks: seq<Grouped<real>>, nets: seq<Grouped<Traffic>>)
    requires k > 0
    requires Lists(disks, GroupBy(Writable(t.filesystems), FilesystemMinute, Used, Fuller))
    requires Lists(nets, GroupBy(t.network, NetworkMinute, TrafficOf, MoreTraffic))
    requires Distinct(MinutesOf(t.main)) && forall i :: 0 <= i < |t.network| ==> t.network[i].minute in MinutesOf(t.main)
    requires forall i :: 0 <= i < |t.main| ==> t.main[i].seconds > 0
    ensures var points := Joined(t, k, disks, nets);
      && Conserves(points, PointRx, Total(t.network, Rx)) && Conserves(points, PointTx, Total(t.network, Tx))
      && Conserves(points, PointRead, Total(t.main, Read)) && Conserves(points, PointWritten, Total(t.main, Written))
  {
    hide Lists, GroupBy, Joined, Direct, RatePoints, TimesSeconds, Total, Shown, TotalDelta;
    PreAggregationIsDirect(t, k, disks, nets);
    DirectShows(t, k);
    var points := Direct(t, k);
    RatesConserveDeltas(ColumnOf(points, PointRx));
    RatesConserveDeltas(ColumnOf(points, PointTx));
    RatesConserveDeltas(ColumnOf(points, PointRead));
    RatesConserveDeltas(ColumnOf(points, PointWritten));
    AllTrafficShown(MinutesOf(t.main), t.network, Rx);
    AllTrafficShown(MinutesOf(t.main), t.network, Tx);
  }

  // ---- what a minute's point says ----

  ghost predicate WritableAt(rows: seq<FilesystemRow>, m: Minute, i: nat) {
    i < |rows| && rows[i].minute == m && !rows[i].readOnly
  }

  /** The greatest usage among the minute's filesystems that can be written, or zero when there is none. */
  ghost predicate IsDiskUsage(disk: real, rows: seq<FilesystemRow>, m: Minute) {
    && ((forall i: nat :: !WritableAt(rows, m, i)) ==> disk == 0.0)
    && (forall i: nat :: WritableAt(rows, m, i) ==> rows[i].usedPercent <= disk)
    && ((exists i: nat :: WritableAt(rows, m, i)) ==> exists i: nat :: WritableAt(rows, m, i) && rows[i].usedPercent == disk)
  }

  ghost predicate ListsWritable(rows: seq<FilesystemRow>, m: Minute, r: FilesystemRow) {
    exists i: nat :: WritableAt(rows, m, i) && rows[i] == r
  }

  lemma ListsMore(rows: seq<FilesystemRow>, m: Minute, r: FilesystemRow)
    requires rows != []
    ensures var n := |rows| - 1;
      ListsWritable(rows, m, r) <==> ListsWritable(rows[..n], m, r) || (rows[n] == r && r.minute == m && !r.readOnly)
  {
    var n := |rows| - 1;
    if i: nat :| WritableAt(rows[..n], m, i) && rows[..n][i] == r {
      assert WritableAt(rows, m, i) && rows[i] == r;
    }
    if rows[n] == r && r.minute == m && !r.readOnly {
      assert WritableAt(rows, m, n);
    }
    if i: nat :| WritableAt(rows, m, i) && rows[i] == r {
      assert i < n ==> WritableAt(rows[..n], m, i) && rows[..n][i] == r;
    }
  }

  lemma {:induction false} WritableRowsAre(rows: seq<FilesystemRow>, m: Minute, r: FilesystemRow)
    ensures r in RowsAt(Writable(rows), FilesystemMinute, m) <==> ListsWritable(rows, m, r)
  {
    if rows != [] {
      var n := |rows| - 1;
      WritableRowsAre(rows[..n], m, r);
      OneMoreAt(Writable(rows[..n]), rows[n], m);
      ListsMore(rows, m, r);
      hide ListsWritable, RowsAt;
    }
  }

  lemma OneMoreAt(rows: seq<FilesystemRow>, r: FilesystemRow, m: Minute)
    ensures RowsAt(rows + [r], FilesystemMinute, m) == RowsAt(rows, FilesystemMinute, m) + if r.minute == m then [r] else []
    ensures RowsAt(rows + [], FilesystemMinute, m) == RowsAt(rows, FilesystemMinute, m)
  {
    assert (rows + [r])[..|rows|] == rows && rows + [] == rows;
  }

  lemma {:induction false} FoldIsGreatest(rows: seq<FilesystemRow>)
    requires rows != []
    ensures forall r :: r in rows ==> r.usedPercent <= Fold(rows, Used, Fuller)
    ensures exists r :: r in rows && r.usedPercent == Fold(rows, Used, Fuller)
  {
    var n := |rows| - 1;
    if n > 0 {
      FoldIsGreatest(rows[..n]);
      var r :| r in rows[..n] && r.usedPercent == Fold(rows[..n], Used, Fuller);
      assert r in rows && rows[n] in rows;
      assert forall x :: x in rows ==> x in rows[..n] || x == rows[n];
    } else {
      assert rows[0] in rows && forall x :: x in rows ==> x == rows[0];
    }
  }

  lemma DiskUsageIs(rows: seq<FilesystemRow>, m: Minute)
    ensures var there := RowsAt(Writable(rows), FilesystemMinute, m);
      IsDiskUsage(if there == [] then 0.0 else Fold(there, Used, Fuller), rows, m)
  {
    hide RowsAt, Writable, Fold;
    var there := RowsAt(Writable(rows), FilesystemMinute, m);
    forall i: nat | WritableAt(rows, m, i) ensures rows[i] in there {
      WritableRowsAre(rows, m, rows[i]);
    }
    if there != [] {
      FoldIsGreatest(there);
      assert there[0] in there;
      var r :| r in there && r.usedPercent == Fold(there, Used, Fuller);
      WritableRowsAre(rows, m, there[0]);
      WritableRowsAre(rows, m, r);
    }
  }

  /** A point has its sample's own columns, the minute's greatest disk usage, and the minute's traffic. */
  ghost predicate PointSays(p: MinutePoint, t: Tables, i: nat, k: nat)
    requires k > 0 && i < |t.main|
  {
    var r := t.main[i];
    && p.bucket == HourRelative(r.minute, k) && p.cpu == r.cpu && p.memory == r.memory && p.read == r.read && p.written == r.written
    && p.seconds == r.seconds && IsDiskUsage(p.disk, t.filesystems, r.minute)
    && p.rx == Total(RowsAt(t.network, NetworkMinute, r.minute), Rx) && p.tx == Total(RowsAt(t.network, NetworkMinute, r.minute), Tx)
  }

  lemma {:induction false} PointsSay(t: Tables, k: nat)
    requires k > 0
    ensures |Direct(t, k)| == |t.main| && forall i: nat :: i < |t.main| ==> PointSays(Direct(t, k)[i], t, i, k)
    decreases |t.main|
  {
    hide Fold, RowsAt, Writable, HourRelative, IsDiskUsage, Total;
    if t.main != [] {
      var n := |t.main| - 1;
      var u := t.(main := t.main[..n]);
      PointsSay(u, k);
      var r, points := t.main[n], Direct(t, k);
      DiskUsageIs(t.filesystems, r.minute);
      var network := RowsAt(t.network, NetworkMinute, r.minute);
      if network != [] {
        FoldIsSum(network);
      } else {
        assert Total(network, Rx) == 0 && Total(network, Tx) == 0 by { NoTotal(network); }
      }
      forall i: nat | i < |t.main| ensures PointSays(points[i], t, i, k) {
        assert i < n ==> PointSays(Direct(u, k)[i], u, i, k) && points[i] == Direct(u, k)[i];
      }
    }
  }

  lemma NoTotal(rows: seq<NetworkRow>)
    requires rows == []
    ensures Total(rows, Rx) == 0 && Total(rows, Tx) == 0
  {}

  // ---- averages ----

  /** A column of the answer that is averaged. */
  function AveragedOf(points: seq<MinutePoint>, column: MinutePoint -> real): (r: seq<Sampled>)
    ensures |r| == |points|
  {
    seq(|points|, i requires 0 <= i < |points| => Sampled(points[i].bucket, column(points[i]), 1))
  }

  function TotalIn(points: seq<MinutePoint>, column: MinutePoint -> real, bucket: Minute): real {
    if points == [] then 0.0
    else
      var n := |points| - 1;
      TotalIn(points[..n], column, bucket) + if points[n].bucket == bucket then column(points[n]) else 0.0
  }

  ghost function IndicesIn(points: seq<MinutePoint>, bucket: Minute): set<int> {
    set i | 0 <= i < |points| && points[i].bucket == bucket
  }

  lemma {:induction false} AveragedSums(points: seq<MinutePoint>, column: MinutePoint -> real, bucket: Minute)
    ensures DeltaAt(AveragedOf(points, column), bucket) == TotalIn(points, column, bucket)
    ensures SecondsAt(AveragedOf(points, column), bucket) == |IndicesIn(points, bucket)|
  {
    if points == [] {
      assert IndicesIn(points, bucket) == {};
    } else {
      var n := |points| - 1;
      AveragedSums(points[..n], column, bucket);
      assert AveragedOf(points, column)[..n] == AveragedOf(points[..n], column);
      assert IndicesIn(points, bucket) == IndicesIn(points[..n], bucket) + if points[n].bucket == bucket then {n} else {};
    }
  }

  /** For every column: one figure for each bucket of the minutes, and it is the average of the bucket's minutes. */
  lemma AveragesAre(points: seq<MinutePoint>, column: MinutePoint -> real)
    ensures var answer := RatePoints(AveragedOf(points, column));
      && DistinctBuckets(answer)
      && (forall p :: p in points ==> HasBucket(answer, p.bucket))
      && (forall a :: a in answer ==> Rate(a) * (|IndicesIn(points, a.bucket)| as real) == TotalIn(points, column, a.bucket))
  {
    hide RatePoints, Rate, TotalIn, IndicesIn, TimesSeconds, TotalDelta, DeltaAt, SecondsAt, DistinctBuckets;
    var samples := AveragedOf(points, column);
    RatePointsAre(samples);
    RatesConserveDeltas(samples);
    var answer := RatePoints(samples);
    forall p | p in points ensures HasBucket(answer, p.bucket) {
      var i :| 0 <= i < |points| && points[i] == p;
      assert samples[i] in samples;
    }
    forall a | a in answer ensures Rate(a) * (|IndicesIn(points, a.bucket)| as real) == TotalIn(points, column, a.bucket) {
      AveragedSums(points, column, a.bucket);
      var i :| 0 <= i < |answer| && answer[i] == a;
      assert a.seconds > 0;
      RateIsAverage(a, |IndicesIn(points, a.bucket)|, TotalIn(points, column, a.bucket));
    }
  }

  lemma RateIsAverage(a: RatePoint, count: nat, total: real)
    requires a.seconds == count > 0 && a.delta == total
    ensures Rate(a) * (count as real) == total
  {
    RateTimesSeconds(a);
  }

  // ---- GPU series ----

  datatype GpuRow = GpuRow(device: Id, bucket: Minute, utilization: real, memory: real)

  datatype GpuSeries = GpuSeries(device: Id, points: seq<GpuRow>)

  function DevicesOf(rows: seq<GpuRow>): seq<Id> {
    if rows == [] then []
    else
      var earlier := DevicesOf(rows[..|rows| - 1]);
      if rows[|rows| - 1].device in earlier then earlier else earlier + [rows[|rows| - 1].device]
  }

  function PointsOf(rows: seq<GpuRow>, device: Id): seq<GpuRow> {
    if rows == [] then []
    else PointsOf(rows[..|rows| - 1], device) + if rows[|rows| - 1].device == device then [rows[|rows| - 1]] else []
  }

  /** One series per device, in order of first appearance, each with exactly the device's rows in their order. */
  ghost predicate AreSeries(series: seq<GpuSeries>, rows: seq<GpuRow>) {
    && |series| == |DevicesOf(rows)|
    && forall i :: 0 <= i < |series| ==> series[i] == GpuSeries(DevicesOf(rows)[i], PointsOf(rows, DevicesOf(rows)[i]))
  }

  lemma {:induction false} DevicesDistinct(rows: seq<GpuRow>)
    ensures Distinct(DevicesOf(rows))
    ensures forall r :: r in rows ==> r.device in DevicesOf(rows)
  {
    if rows != [] {
      var earlier := DevicesOf(rows[..|rows| - 1]);
      DevicesDistinct(rows[..|rows| - 1]);
      assert forall i :: 0 <= i < |earlier| ==> earlier[i] in earlier;
    }
  }

  lemma {:induction false} UnseenHasNoPoints(rows: seq<GpuRow>, device: Id)
    requires device !in DevicesOf(rows)
    ensures PointsOf(rows, device) == []
  {
    if rows != [] {
      UnseenHasNoPoints(rows[..|rows| - 1], device);
    }
  }

  /** What one row does to the series. */
  lemma SeriesMore(series: seq<GpuSeries>, rows: seq<GpuRow>, row: GpuRow, grown: seq<GpuSeries>, p: nat)
    requires AreSeries(series, rows)
    requires grown == if row.device in DevicesOf(rows) then series else series + [GpuSeries(row.device, [])]
    requires p < |grown| && grown[p].device == row.device
    ensures AreSeries(grown[p := GpuSeries(row.device, grown[p].points + [row])], rows + [row])
  {
    DevicesDistinct(rows);
    if row.device !in DevicesOf(rows) {
      UnseenHasNoPoints(rows, row.device);
    }
    var more := rows + [row];
    assert more[..|rows|] == rows;
    var devices := DevicesOf(more);
    assert devices == DevicesOf(rows) + if row.device in DevicesOf(rows) then [] else [row.device];
    assert forall d :: PointsOf(more, d) == PointsOf(rows, d) + if row.device == d then [row] else [];
    hide DevicesOf, PointsOf;
    forall i | 0 <= i < |grown| && i != p ensures grown[i].device != row.device {
      assert grown[i].device == devices[i] && grown[p].device == devices[p];
    }
  }

  ghost predicate Increasing(at: seq<nat>) {
    forall i, j :: 0 <= i < j < |at| ==> at[i] < at[j]
  }

  /** The points of a device are the rows that name it, each once, in their order. */
  lemma {:induction false} PointsInOrder(rows: seq<GpuRow>, device: Id) returns (at: seq<nat>)
    ensures Increasing(at) && |at| == |PointsOf(rows, device)|
    ensures forall i :: 0 <= i < |at| ==> at[i] < |rows| && PointsOf(rows, device)[i] == rows[at[i]]
    ensures forall n: nat :: n < |rows| ==> (rows[n].device == device <==> n in at)
  {
    at := [];
    if rows != [] {
      var n := |rows| - 1;
      var before := PointsInOrder(rows[..n], device);
      at := before + if rows[n].device == device then [n] else [];
      assert forall m: nat :: m < n ==> rows[..n][m] == rows[m];
      assert forall i :: 0 <= i < |before| ==> before[i] < n;
    }
  }

  /** No earlier row names the device of row `n`. */
  ghost predicate IsFirstRow(rows: seq<GpuRow>, n: nat) {
    n < |rows| && forall m :: 0 <= m < n ==> rows[m].device != rows[n].device
  }

  lemma {:induction false} DeviceOfSomeRow(rows: seq<GpuRow>, device: Id)
    ensures device in DevicesOf(rows) ==> exists m :: 0 <= m < |rows| && rows[m].device == device
  {
    if rows != [] {
      DeviceOfSomeRow(rows[..|rows| - 1], device);
      assert forall m :: 0 <= m < |rows| - 1 ==> rows[..|rows| - 1][m] == rows[m];
    }
  }

  lemma FirstRows(rows: seq<GpuRow>)
    requires rows != []
    ensures var n := |rows| - 1;
      && (IsFirstRow(rows, n) <==> rows[n].device !in DevicesOf(rows[..n]))
      && forall m: nat :: m < n ==> (IsFirstRow(rows, m) <==> IsFirstRow(rows[..n], m))
  {
    var n := |rows| - 1;
    assert forall m :: 0 <= m < n ==> rows[..n][m] == rows[m];
    DevicesDistinct(rows[..n]);
    DeviceOfSomeRow(rows[..n], rows[n].device);
    hide DevicesOf;
    assert forall m :: 0 <= m < n ==> rows[m] in rows[..n];
  }

  /** The devices are those the rows name, each once, in the order of their first rows. */
  lemma {:induction false} DevicesInOrder(rows: seq<GpuRow>) returns (at: seq<nat>)
    ensures Increasing(at) && |at| == |DevicesOf(rows)|
    ensures forall i :: 0 <= i < |at| ==> at[i] < |rows| && DevicesOf(rows)[i] == rows[at[i]].device
    ensures forall n: nat :: n in at <==> IsFirstRow(rows, n)
  {
    at := [];
    if rows != [] {
      var n := |rows| - 1;
      FirstRows(rows);
      hide IsFirstRow;
      var before := DevicesInOrder(rows[..n]);
      at := before + if rows[n].device in DevicesOf(rows[..n]) then [] else [n];
      assert forall i :: 0 <= i < |before| ==> before[i] < n;
      forall m: nat ensures m in at <==> IsFirstRow(rows, m) {
        PastTheEnd(rows, m);
        PastTheEnd(rows[..n], m);
      }
    } else {
      forall m: nat ensures !IsFirstRow(rows, m) {}
    }
  }

  lemma PastTheEnd(rows: seq<GpuRow>, n: nat)
    ensures IsFirstRow(rows, n) ==> n < |rows|
  {}

  method QueryGpuHistory(rows: seq<GpuRow>) returns (result: seq<GpuSeries>)
    ensures AreSeries(result, rows)
  {
    result := [];
    var positions: map<Id, nat> := map[];
    for n := 0 to |rows|
      invariant AreSeries(result, rows[..n])
      invariant forall d :: d in positions <==> d in DevicesOf(rows[..n])
      invariant forall d :: d in positions ==> positions[d] < |result| && result[positions[d]].device == d
    {
      var row := rows[n];
      assert rows[..n + 1] == rows[..n] + [row];
      DevicesMore(rows[..n], row);
      ghost var before := result;
      var position;
      if row.device in positions {
        position := positions[row.device];
      } else {
        position := |result|;
        positions := positions[row.device := position];
        result := result + [GpuSeries(row.device, [])];
      }
      SeriesMore(before, rows[..n], row, result, position);
      hide AreSeries, DevicesOf;
      result := result[position := GpuSeries(row.device, result[position].points + [row])];
    }
    assert rows[..|rows|] == rows;
  }

  lemma DevicesMore(rows: seq<GpuRow>, row: GpuRow)
    ensures forall d :: d in DevicesOf(rows + [row]) <==> d in DevicesOf(rows) || d == row.device
  {
    assert (rows + [row])[..|rows|] == rows;
  }
}
