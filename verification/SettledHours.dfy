/**
 * Settled hours: the 24 hours a report may be late, the 25 hours a cycle redoes, and the hour between cycles fit
 * together (internal/server/maintenance.go:32-39, internal/report/validate.go:37-42).
 */
module SettledHours {
  import opened Text
  import opened Clock
  import opened Reports
  import opened Inventories
  import opened InventoryTables
  import opened NetworkTables
  import opened InventoryDatabase
  import opened Samples
  import opened Rollups
  import opened HourFigures
  import opened Partitions
  import opened Database
  import opened Ingestion
  import opened Acceptance
  import opened Runs
  import opened RunSamples

  /** No two successive cycles are more than an hour apart. */
  ghost predicate HourlyCycles(run: seq<Step>) {
    forall i, j :: 0 <= i < j < |run| && run[i].Cycle? && run[j].Cycle? && (forall k :: i < k < j ==> !run[k].Cycle?) ==>
      run[j].at <= run[i].at + Hours(1)
  }

  // ---- lateness ----

  /** A report for the hour can be accepted from five minutes before it starts until 24 hours after its last instant. */
  lemma ReportableIff(hour: Hour, t: Instant)
    ensures (exists c :: HourOf(c) == hour && InTimeWindow(c, t))
            <==> HourStart(hour) - Minutes(5) <= t < HourStart(hour + 25)
  {
    if HourStart(hour) - Minutes(5) <= t < HourStart(hour + 25) {
      var c := if t - Hours(24) <= HourStart(hour) then HourStart(hour) else t - Hours(24);
      assert HourOf(c) == hour && InTimeWindow(c, t);
    }
  }

  lemma LateStepMissesHour(db: Db, digest: Digest, s: Step, hour: Hour, minute: Minute, node: NodeId)
    requires WfInventory(db.inventory)
    requires s.at >= HourStart(hour + 25) && InHour(minute, hour)
    ensures !Stores(db, digest, s, minute, node)
  {
    hide Ingest, ValidInventory, ValidMetrics, WfInventory, Fingerprint;
    if Stores(db, digest, s, minute, node) {
      BucketKeepsHourAndDay(s.report.collectedAt);
      assert InTimeWindow(s.report.collectedAt, s.at) && HourOf(s.report.collectedAt) == hour;
      ReportableIff(hour, s.at);
    }
  }

  lemma DayOfInHour(minute: Minute, hour: Hour)
    requires InHour(minute, hour)
    ensures DayOfMinute(minute) == DayOfHour(hour)
  {}

  // ---- the hour's samples are final ----

  /** The hour's rows are all gone, or all as they were. */
  ghost predicate HourFinal(a: SampleDb, b: SampleDb, hour: Hour, dropped: bool) {
    forall minute, node :: InHour(minute, hour) ==> if dropped then SlotEmpty(b, minute, node) else SlotSame(a, b, minute, node)
  }

  /** Some cycle from `c` on dropped the hour's day. */
  ghost predicate DayDropped(run: seq<Step>, c: nat, hour: Hour) {
    exists i :: c <= i < |run| && run[i].Cycle? && DayOfHour(hour) < DayOf(run[i].at) - 90
  }

  lemma DayDroppedStep(run: seq<Step>, c: nat, hour: Hour)
    requires c < |run|
    ensures var n := |run| - 1;
      DayDropped(run, c, hour) <==> DayDropped(run[..n], c, hour) || (run[n].Cycle? && DayOfHour(hour) < DayOf(run[n].at) - 90)
  {
    hide DayOf, DayOfHour;
    var n := |run| - 1;
    assert forall i :: 0 <= i < n ==> run[..n][i] == run[i];
    if DayDropped(run, c, hour) {
      var i :| c <= i < |run| && run[i].Cycle? && DayOfHour(hour) < DayOf(run[i].at) - 90;
      assert i < n ==> run[..n][i] == run[i];
    }
  }

  /** From 25 hours after its start an hour's samples never change, until its day is dropped as a whole. */
  lemma {:induction false} SamplesAreFinal(digest: Digest, run: seq<Step>, c: nat, hour: Hour)
    requires GoodDigest(digest) && Timed(run) && c <= |run|
    requires forall i :: c <= i < |run| ==> run[i].at >= HourStart(hour + 25)
    ensures HourFinal(State(digest, run[..c]).history.samples, State(digest, run).history.samples, hour, DayDropped(run, c, hour))
    decreases |run|
  {
    hide State, Apply, SlotSame, SlotEmpty, SlotShows, StoredBy, WfDb, WfInventory, Stores, DayOf, DayOfHour, HourOfMinute;
    var first := State(digest, run[..c]).history.samples;
    if c == |run| {
      WholeRun(digest, run);
      forall minute, node ensures SlotSame(first, first, minute, node) {
        SameSlot(first, minute, node);
      }
    } else {
      var n := |run| - 1;
      var p := run[..n];
      assert p[..c] == run[..c];
      SamplesAreFinal(digest, p, c, hour);
      DayDroppedStep(run, c, hour);
      hide DayDropped;
      StateStep(digest, run, n);
      WholeRun(digest, run);
      var before, after := State(digest, p), State(digest, run);
      forall minute, node | InHour(minute, hour)
        ensures if DayDropped(run, c, hour) then SlotEmpty(after.history.samples, minute, node)
                else SlotSame(first, after.history.samples, minute, node)
      {
        LateStepMissesHour(before, digest, run[n], hour, minute, node);
        DayOfInHour(minute, hour);
        StepSlot(before, digest, run[n], minute, node);
        if !Expires(run[n], minute) {
          if DayDropped(p, c, hour) {
            SameSlotShows(before.history.samples, after.history.samples, minute, node);
          } else {
            SlotSameTransitive(first, before.history.samples, after.history.samples, minute, node);
          }
        }
      }
    }
  }

  lemma FinalIsSame(a: SampleDb, b: SampleDb, hour: Hour)
    requires HourFinal(a, b, hour, false)
    ensures SameSamples(a, b, hour)
  {
    forall k: MinuteKey | InHour(k.minute, hour) ensures Alike(a.main, b.main, k) {
      assert SlotSame(a, b, k.minute, k.node);
    }
    forall k: DetailKey | InHour(k.minute, hour)
      ensures Alike(a.filesystems, b.filesystems, k) && Alike(a.network, b.network, k) && Alike(a.gpus, b.gpus, k)
    {
      assert SlotSame(a, b, k.minute, k.node);
      assert k == DetailKey(k.minute, k.node, k.resource);
    }
  }

  // ---- the hour's rows are settled ----

  /** The cycle at `c` is the one that rolls the hour up after its last report. */
  ghost predicate Settles(run: seq<Step>, c: nat, hour: Hour) {
    c < |run| && run[c].Cycle? && HourOf(run[c].at) == hour + 25
  }

  /** No later cycle drops the month of the hour's rows. */
  ghost predicate MonthKept(run: seq<Step>, c: nat, hour: Hour) {
    forall i :: c <= i < |run| && run[i].Cycle? ==> MonthOf(run[i].at) - 24 <= MonthOfHour(hour)
  }

  lemma CycleHour(db: Db, digest: Digest, s: Step, hour: Hour)
    requires WfDb(db, digest) && GoodDigest(digest) && WfInventory(db.inventory) && s.Cycle?
    requires MonthOf(s.at) - 24 <= MonthOfHour(hour)
    ensures var after := Apply(db, digest, s).history;
      if HourOf(s.at) - 25 <= hour < HourOf(s.at) then HourIs(after.hourly, after.samples, hour)
      else SameHourly(db.history.hourly, after.hourly, hour)
  {
    hide WfInventory, InventoryChecked, FingerprintsTrue, WfHistory, CurrentAgrees, DaysWhole, SamplesChecked, ResourcesExist,
      HourIs, SameHourly, Cycled, MonthOf, MonthOfHour, Maintained;
    CycleFacts(db.history, s.at);
  }

  lemma QuietHour(db: Db, digest: Digest, s: Step)
    requires WfInventory(db.inventory) && !s.Cycle?
    ensures Apply(db, digest, s).history.hourly == db.history.hourly
  {
    hide WfInventory, InventoryChecked, WithCurrent, WithHealth, ContributionOf, ActiveSetsOf, SyncedInventory, RowsFailure, Validated;
  }

  /** Within the hour that settles it, no cycle can have dropped the hour's day. */
  lemma NotYetDropped(run: seq<Step>, c: nat, hour: Hour)
    requires Timed(run) && run != [] && HourOf(run[|run| - 1].at) == hour + 25
    ensures !DayDropped(run, c, hour)
  {
    forall i | c <= i < |run| && run[i].Cycle? ensures DayOfHour(hour) >= DayOf(run[i].at) - 90 {
      assert run[i].at <= run[|run| - 1].at;
    }
  }

  /** From the settling cycle on, the hour's rows are the aggregates of its final samples. */
  lemma {:induction false} HourStaysSettled(digest: Digest, run: seq<Step>, c: nat, hour: Hour)
    requires GoodDigest(digest) && Timed(run) && Settles(run, c, hour) && MonthKept(run, c, hour)
    ensures HourIs(State(digest, run).history.hourly, State(digest, run[..c + 1]).history.samples, hour)
    decreases |run|
  {
    hide State, Apply, WfDb, WfInventory, HourIs, SameHourly, MonthOf, MonthOfHour, HourFinal, DayDropped, SameSamples;
    var n := |run| - 1;
    var p, s := run[..n], run[n];
    StateStep(digest, run, n);
    WholeRun(digest, run);
    var before, after := State(digest, p), State(digest, run);
    var final := State(digest, run[..c + 1]).history.samples;
    assert run[c].at <= s.at || c == n;
    if c == n {
      CycleHour(before, digest, s, hour);
      assert run[..c + 1] == run;
    } else {
      assert p[..c + 1] == run[..c + 1];
      HourStaysSettled(digest, p, c, hour);
      if !s.Cycle? {
        QuietHour(before, digest, s);
      } else {
        CycleHour(before, digest, s, hour);
        if HourOf(s.at) == hour + 25 {
          AfterTheHour(run, c, hour);
          SamplesAreFinal(digest, run, c + 1, hour);
          NotYetDropped(run, c + 1, hour);
          FinalIsSame(final, after.history.samples, hour);
          SameSamplesSymmetric(final, after.history.samples, hour);
          HourIsTransfers(after.history.hourly, after.history.samples, final, hour);
        } else {
          HourIsKept(before.history.hourly, after.history.hourly, final, hour);
        }
      }
    }
  }

  lemma AfterTheHour(run: seq<Step>, c: nat, hour: Hour)
    requires Timed(run) && Settles(run, c, hour)
    ensures forall i :: c <= i < |run| ==> run[i].at >= HourStart(hour + 25)
  {
    forall i | c <= i < |run| ensures run[i].at >= HourStart(hour + 25) {
      assert run[c].at <= run[i].at || i == c;
    }
  }

  lemma SameSamplesSymmetric(a: SampleDb, b: SampleDb, hour: Hour)
    requires SameSamples(a, b, hour)
    ensures SameSamples(b, a, hour)
  {
    forall k: MinuteKey | InHour(k.minute, hour) ensures Alike(b.main, a.main, k) {
      assert Alike(a.main, b.main, k);
    }
    forall k: DetailKey | InHour(k.minute, hour)
      ensures Alike(b.filesystems, a.filesystems, k) && Alike(b.network, a.network, k) && Alike(b.gpus, a.gpus, k)
    {
      assert Alike(a.filesystems, b.filesystems, k) && Alike(a.network, b.network, k) && Alike(a.gpus, b.gpus, k);
    }
  }

  // ---- some cycle settles each hour ----

  lemma FirstCycleFrom(run: seq<Step>, early: nat, late: nat, t: Instant) returns (c: nat)
    requires early < late < |run| && run[late].Cycle? && run[late].at >= t
    ensures early < c <= late && run[c].Cycle? && run[c].at >= t
    ensures forall k :: early < k < c && run[k].Cycle? ==> run[k].at < t
  {
    c := early + 1;
    while !(run[c].Cycle? && run[c].at >= t)
      invariant early < c <= late
      invariant forall k :: early < k < c && run[k].Cycle? ==> run[k].at < t
      decreases late - c
    {
      c := c + 1;
    }
  }

  lemma LastCycleBefore(run: seq<Step>, early: nat, c: nat) returns (p: nat)
    requires early < c < |run| && run[early].Cycle?
    ensures early <= p < c && run[p].Cycle? && forall k :: p < k < c ==> !run[k].Cycle?
  {
    p := c - 1;
    while !run[p].Cycle?
      invariant early <= p < c
      invariant forall k :: p < k < c ==> !run[k].Cycle?
      decreases p
    {
      p := p - 1;
    }
  }

  /** With cycles at most an hour apart, one starts in the hour that begins 25 hours after the hour's start. */
  lemma SomeCycleSettles(run: seq<Step>, hour: Hour, early: nat, late: nat) returns (c: nat)
    requires HourlyCycles(run) && early < late < |run| && run[early].Cycle? && run[late].Cycle?
    requires run[early].at < HourStart(hour + 25) <= run[late].at
    ensures early < c <= late && Settles(run, c, hour)
  {
    c := FirstCycleFrom(run, early, late, HourStart(hour + 25));
    var p := LastCycleBefore(run, early, c);
    assert run[c].at <= run[p].at + Hours(1);
  }

  /**
   * Every hour settles: in a run with cycles at most an hour apart that spans its 25th hour, some cycle rolls it up
   * after its last report; from then on its rows equal the aggregates of its final samples until their month is
   * dropped, even after the samples themselves are dropped.
   */
  lemma EveryHourSettles(digest: Digest, run: seq<Step>, hour: Hour, early: nat, late: nat) returns (c: nat)
    requires GoodDigest(digest) && Timed(run) && HourlyCycles(run)
    requires early < late < |run| && run[early].Cycle? && run[late].Cycle?
    requires run[early].at < HourStart(hour + 25) <= run[late].at
    ensures early < c <= late && Settles(run, c, hour)
    ensures HourFinal(State(digest, run[..c + 1]).history.samples, State(digest, run).history.samples, hour, DayDropped(run, c + 1, hour))
    ensures MonthKept(run, c, hour) ==> HourIs(State(digest, run).history.hourly, State(digest, run[..c + 1]).history.samples, hour)
  {
    hide State, WfDb, WfInventory, HourIs, MonthKept, HourFinal, DayDropped, Timed, HourlyCycles, HourStart;
    c := SomeCycleSettles(run, hour, early, late);
    AfterTheHour(run, c, hour);
    SamplesAreFinal(digest, run, c + 1, hour);
    if MonthKept(run, c, hour) {
      HourStaysSettled(digest, run, c, hour);
    }
  }

  lemma SamplesHaveMain(digest: Digest, run: seq<Step>)
    requires GoodDigest(digest)
    ensures DetailsHaveMain(State(digest, run).history.samples)
  {
    hide DetailsHaveMain, WfInventory, InventoryChecked, FingerprintsTrue, CurrentAgrees, DaysWhole, SamplesChecked, ResourcesExist, RowsPartitioned;
  }

  /**
   * So every column of every settled row is the count, total, average or maximum it is named for, over the samples
   * stored for the hour; as long as their day is kept, those are the samples in the tables now.
   */
  lemma SettledRowsSay(digest: Digest, run: seq<Step>, hour: Hour, early: nat, late: nat) returns (c: nat)
    requires GoodDigest(digest) && Timed(run) && HourlyCycles(run)
    requires early < late < |run| && run[early].Cycle? && run[late].Cycle?
    requires run[early].at < HourStart(hour + 25) <= run[late].at
    ensures early < c <= late && Settles(run, c, hour)
    ensures MonthKept(run, c, hour) ==>
              HourSays(State(digest, run).history.hourly, State(digest, run[..c + 1]).history.samples, hour)
    ensures MonthKept(run, c, hour) && !DayDropped(run, c + 1, hour) ==>
              HourSays(State(digest, run).history.hourly, State(digest, run).history.samples, hour)
  {
    hide State, WfDb, WfInventory, HourIs, MonthKept, DayDropped, Timed, HourlyCycles, HourStart, HourSays, DetailsHaveMain, SameSamples, Settles;
    c := EveryHourSettles(digest, run, hour, early, late);
    if MonthKept(run, c, hour) {
      var hourly, final, now := State(digest, run).history.hourly, State(digest, run[..c + 1]).history.samples, State(digest, run).history.samples;
      SamplesHaveMain(digest, run[..c + 1]);
      HourFiguresAre(hourly, final, hour);
      if !DayDropped(run, c + 1, hour) {
        FinalIsSame(final, now, hour);
        HourIsTransfers(hourly, final, now, hour);
        SamplesHaveMain(digest, run);
        HourFiguresAre(hourly, now, hour);
      }
    }
  }
}
