/** The samples of each minute over every run. */
module RunSamples {
  import opened Text
  import opened Clock
  import opened Reports
  import opened Inventories
  import opened InventoryTables
  import opened NetworkTables
  import opened InventoryDatabase
  import opened Samples
  import opened Snapshots
  import opened Rollups
  import opened Partitions
  import opened Database
  import opened Ingestion
  import opened Acceptance
  import opened Runs

  // ---- the rows of one minute of one node ----

  ghost predicate SlotShows(s: SampleDb, minute: Minute, node: NodeId, c: Contribution) {
    && MinuteKey(minute, node) in s.main && s.main[MinuteKey(minute, node)] == c.main
    && SlotIs(s.filesystems, minute, node, c.filesystems)
    && SlotIs(s.network, minute, node, c.network)
    && SlotIs(s.gpus, minute, node, c.gpus)
  }

  ghost predicate SlotEmpty(s: SampleDb, minute: Minute, node: NodeId) {
    && MinuteKey(minute, node) !in s.main
    && SlotIs(s.filesystems, minute, node, map[]) && SlotIs(s.network, minute, node, map[]) && SlotIs(s.gpus, minute, node, map[])
  }

  /** The two databases hold the same rows for this minute of this node. */
  ghost predicate SlotSame(a: SampleDb, b: SampleDb, minute: Minute, node: NodeId) {
    && Alike(a.main, b.main, MinuteKey(minute, node))
    && (forall id :: Alike(a.filesystems, b.filesystems, DetailKey(minute, node, id)))
    && (forall id :: Alike(a.network, b.network, DetailKey(minute, node, id)))
    && (forall id :: Alike(a.gpus, b.gpus, DetailKey(minute, node, id)))
  }

  lemma SameSlotShows(a: SampleDb, b: SampleDb, minute: Minute, node: NodeId)
    requires SlotSame(a, b, minute, node)
    ensures forall c :: SlotShows(a, minute, node, c) ==> SlotShows(b, minute, node, c)
    ensures SlotEmpty(a, minute, node) ==> SlotEmpty(b, minute, node)
  {
    forall rows: map<Id, FilesystemSample> | SlotIs(a.filesystems, minute, node, rows) ensures SlotIs(b.filesystems, minute, node, rows) {
      assert forall id :: Alike(a.filesystems, b.filesystems, DetailKey(minute, node, id));
    }
    forall rows: map<Id, NetworkMetrics> | SlotIs(a.network, minute, node, rows) ensures SlotIs(b.network, minute, node, rows) {
      assert forall id :: Alike(a.network, b.network, DetailKey(minute, node, id));
    }
    forall rows: map<Id, GpuSample> | SlotIs(a.gpus, minute, node, rows) ensures SlotIs(b.gpus, minute, node, rows) {
      assert forall id :: Alike(a.gpus, b.gpus, DetailKey(minute, node, id));
    }
  }

  /** One report replaces the rows of its own minute and node, wholly, and no others. */
  lemma ReportFillsSlot(s: SampleDb, minute: Minute, node: NodeId, c: Contribution)
    ensures SlotShows(WithSamples(s, minute, node, c), minute, node, c)
    ensures forall m, n :: (m != minute || n != node) ==> SlotSame(s, WithSamples(s, minute, node, c), m, n)
  {
    hide Placed, SlotIs;
    PlacedSlot(s.filesystems, minute, node, c.filesystems);
    PlacedSlot(s.network, minute, node, c.network);
    PlacedSlot(s.gpus, minute, node, c.gpus);
    var t := WithSamples(s, minute, node, c);
    assert SlotShows(t, minute, node, c);
    hide WithSamples, SlotShows, SlotSame;
    forall m, n | m != minute || n != node ensures SlotSame(s, t, m, n) {
      OtherSlotSame(s, minute, node, c, m, n);
    }
  }

  lemma OtherSlotSame(s: SampleDb, minute: Minute, node: NodeId, c: Contribution, m: Minute, n: NodeId)
    requires m != minute || n != node
    ensures SlotSame(s, WithSamples(s, minute, node, c), m, n)
  {
    hide Placed, SlotIs;
    PlacedSlot(s.filesystems, minute, node, c.filesystems);
    PlacedSlot(s.network, minute, node, c.network);
    PlacedSlot(s.gpus, minute, node, c.gpus);
  }

  /** A cycle either leaves a minute as it was or, after 90 days, removes it whole. */
  lemma CycleSlot(h: History, at: Instant, minute: Minute, node: NodeId)
    requires WfHistory(h)
    ensures var s := Cycled(h, at).samples;
      if DayOfMinute(minute) >= DayOf(at) - 90 then SlotSame(h.samples, s, minute, node) else SlotEmpty(s, minute, node)
  {
    hide WfHistory, KeptSince, Cycled, Maintained, HourIs, SameHourly, DayOf, MonthOf, DayOfMinute, MonthOfHour;
    CycleFacts(h, at);
    MaintainedRows(h, at);
    SlotKeptSince(h.samples, Maintained(h, at).samples, DayOf(at) - 90, minute, node);
  }

  lemma SlotKeptSince(a: SampleDb, b: SampleDb, cutoff: Day, minute: Minute, node: NodeId)
    requires KeptSince(a.main, b.main, MinuteDay, cutoff) && KeptSince(a.filesystems, b.filesystems, DetailDay, cutoff)
    requires KeptSince(a.network, b.network, DetailDay, cutoff) && KeptSince(a.gpus, b.gpus, DetailDay, cutoff)
    ensures if DayOfMinute(minute) >= cutoff then SlotSame(a, b, minute, node) else SlotEmpty(b, minute, node)
  {
    hide DayOfMinute;
    assert MinuteDay(MinuteKey(minute, node)) == DayOfMinute(minute);
    assert forall id :: DetailDay(DetailKey(minute, node, id)) == DayOfMinute(minute);
  }

  // ---- steps ----

  ghost predicate Stores(db: Db, digest: Digest, s: Step, minute: Minute, node: NodeId)
    requires WfInventory(db.inventory)
  {
    s.Post? && s.node == node && BucketOf(s.report) == minute && Accepted(db, digest, s)
  }

  predicate Expires(s: Step, minute: Minute) {
    s.Cycle? && DayOfMinute(minute) < DayOf(s.at) - 90
  }

  /** The rows an accepted report stores. */
  ghost function StoredBy(db: Db, digest: Digest, s: Step): Contribution
    requires WfDb(db, digest) && GoodDigest(digest) && Accepted(db, digest, s)
  {
    AcceptedFacts(db, digest, s);
    ContributionOf(ActiveSetsOf(Apply(db, digest, s).inventory, s.node), AsReceived(s.report), s.receivedAt)
  }

  lemma AcceptedStores(db: Db, digest: Digest, s: Step)
    requires WfDb(db, digest) && GoodDigest(digest) && Accepted(db, digest, s)
    ensures var after := Apply(db, digest, s);
      && after.history.samples == WithSamples(db.history.samples, BucketOf(s.report), s.node, StoredBy(db, digest, s))
      && after.current == WithCurrent(db.current, BucketOf(s.report), s.node, StoredBy(db, digest, s))
  {
    AcceptedFacts(db, digest, s);
    assert BucketOf(AsReceived(s.report)) == BucketOf(s.report);
  }

  lemma StepSlot(db: Db, digest: Digest, s: Step, minute: Minute, node: NodeId)
    requires WfDb(db, digest) && GoodDigest(digest)
    ensures var after := Apply(db, digest, s).history.samples;
      if Stores(db, digest, s, minute, node) then SlotShows(after, minute, node, StoredBy(db, digest, s))
      else if Expires(s, minute) then SlotEmpty(after, minute, node)
      else SlotSame(db.history.samples, after, minute, node)
  {
    hide WithSamples, WithCurrent, SlotSame, SlotShows, SlotEmpty, Cycled, WfInventory, WfHistory, DayOf, DayOfMinute, Ingest, Validated, StoredBy;
    if Accepted(db, digest, s) {
      AcceptedStores(db, digest, s);
      ReportFillsSlot(db.history.samples, BucketOf(s.report), s.node, StoredBy(db, digest, s));
    } else if s.Cycle? {
      CycleSlot(db.history, s.at, minute, node);
    } else {
      assert Apply(db, digest, s).history == db.history;
      SameSlot(db.history.samples, minute, node);
    }
  }

  lemma SameSlot(s: SampleDb, minute: Minute, node: NodeId)
    ensures SlotSame(s, s, minute, node)
  {}

  // ---- last report wins ----

  /** No step from `i` on reports for this minute of this node or expires its day. */
  ghost predicate Untouched(digest: Digest, run: seq<Step>, i: nat, minute: Minute, node: NodeId)
    requires GoodDigest(digest)
  {
    forall j :: i <= j < |run| ==> !Stores(State(digest, run[..j]), digest, run[j], minute, node) && !Expires(run[j], minute)
  }

  lemma {:induction false} UntouchedSlotKept(digest: Digest, run: seq<Step>, i: nat, j: nat, minute: Minute, node: NodeId)
    requires GoodDigest(digest) && i <= j <= |run| && Untouched(digest, run, i, minute, node)
    ensures SlotSame(State(digest, run[..i]).history.samples, State(digest, run[..j]).history.samples, minute, node)
    decreases j
  {
    hide State, Apply, SlotSame, Expires, Stores, WfDb, WfInventory;
    if i == j {
      SameSlot(State(digest, run[..i]).history.samples, minute, node);
    } else {
      UntouchedSlotKept(digest, run, i, j - 1, minute, node);
      StateStep(digest, run, j - 1);
      StepSlot(State(digest, run[..j - 1]), digest, run[j - 1], minute, node);
      SlotSameTransitive(State(digest, run[..i]).history.samples, State(digest, run[..j - 1]).history.samples,
                         State(digest, run[..j]).history.samples, minute, node);
    }
  }

  lemma SlotSameTransitive(a: SampleDb, b: SampleDb, c: SampleDb, minute: Minute, node: NodeId)
    requires SlotSame(a, b, minute, node) && SlotSame(b, c, minute, node)
    ensures SlotSame(a, c, minute, node)
  {
    forall id ensures Alike(a.filesystems, c.filesystems, DetailKey(minute, node, id)) {
      assert Alike(a.filesystems, b.filesystems, DetailKey(minute, node, id)) && Alike(b.filesystems, c.filesystems, DetailKey(minute, node, id));
    }
    forall id ensures Alike(a.network, c.network, DetailKey(minute, node, id)) {
      assert Alike(a.network, b.network, DetailKey(minute, node, id)) && Alike(b.network, c.network, DetailKey(minute, node, id));
    }
    forall id ensures Alike(a.gpus, c.gpus, DetailKey(minute, node, id)) {
      assert Alike(a.gpus, b.gpus, DetailKey(minute, node, id)) && Alike(b.gpus, c.gpus, DetailKey(minute, node, id));
    }
  }

  /**
   * After every run, the rows of a minute of a node are exactly those of the last report committed for it, unless
   * its day has expired since; whatever other minutes and nodes reported, and in whatever order.
   */
  lemma LastReportWins(digest: Digest, run: seq<Step>, i: nat, minute: Minute, node: NodeId)
    requires GoodDigest(digest) && i < |run|
    requires Stores(State(digest, run[..i]), digest, run[i], minute, node)
    requires Untouched(digest, run, i + 1, minute, node)
    ensures SlotShows(State(digest, run).history.samples, minute, node, StoredBy(State(digest, run[..i]), digest, run[i]))
  {
    hide State, Apply, SlotSame, SlotShows, StoredBy, Ingest, Validated;
    StateStep(digest, run, i);
    StepSlot(State(digest, run[..i]), digest, run[i], minute, node);
    UntouchedSlotKept(digest, run, i + 1, |run|, minute, node);
    SameSlotShows(State(digest, run[..i + 1]).history.samples, State(digest, run[..|run|]).history.samples, minute, node);
    WholeRun(digest, run);
  }

  lemma FirstlyEmpty(digest: Digest, run: seq<Step>, i: nat, minute: Minute, node: NodeId)
    requires GoodDigest(digest) && i <= |run|
    requires i == 0 || Expires(run[i - 1], minute)
    ensures SlotEmpty(State(digest, run[..i]).history.samples, minute, node)
  {
    hide WfDb, WfInventory, StoredBy, SlotSame, SlotShows, Apply;
    if i == 0 {
      assert State(digest, run[..0]) == EmptyDb();
      hide State;
    } else {
      StateStep(digest, run, i - 1);
      hide State, SlotEmpty;
      StepSlot(State(digest, run[..i - 1]), digest, run[i - 1], minute, node);
    }
  }

  /** A minute nobody reported for, or whose day expired after its last report, has no rows at all. */
  lemma UnreportedMinuteIsEmpty(digest: Digest, run: seq<Step>, i: nat, minute: Minute, node: NodeId)
    requires GoodDigest(digest) && i <= |run| && Untouched(digest, run, i, minute, node)
    requires i == 0 || Expires(run[i - 1], minute)
    ensures SlotEmpty(State(digest, run).history.samples, minute, node)
  {
    FirstlyEmpty(digest, run, i, minute, node);
    hide State, SlotSame, SlotEmpty, Stores, WfDb, WfInventory;
    UntouchedSlotKept(digest, run, i, |run|, minute, node);
    SameSlotShows(State(digest, run[..i]).history.samples, State(digest, run[..|run|]).history.samples, minute, node);
    WholeRun(digest, run);
  }
}
