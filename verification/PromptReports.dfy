/** When a validated report is certain to be committed. */
module PromptReports {
  import opened Text
  import opened Clock
  import opened Reports
  import opened Inventories
  import opened InventoryTables
  import opened NetworkTables
  import opened NetworkFacts
  import opened InventoryDatabase
  import opened Samples
  import opened Rollups
  import opened Partitions
  import opened Database
  import opened Ingestion
  import opened Acceptance
  import opened Runs

  // ---- no inventory row was first seen after the latest receive time ----

  ghost predicate FirstSeenBy<O, T>(t: Table<O, T>, latest: Instant) {
    forall id :: id in t.rows ==> t.rows[id].firstSeen <= latest
  }

  ghost predicate InventorySeenBy(inv: InventoryDb, latest: Instant) {
    && FirstSeenBy(inv.cpuPackages, latest) && FirstSeenBy(inv.memoryModules, latest)
    && FirstSeenBy(inv.blockDevices, latest) && FirstSeenBy(inv.filesystems, latest)
    && FirstSeenBy(inv.net.nics, latest) && FirstSeenBy(inv.net.addresses, latest) && FirstSeenBy(inv.gpus, latest)
  }

  lemma StampedSeenBy<O, T>(t: Table<O, T>, r: Table<O, T>, ids: set<Id>, at: Instant, latest: Instant)
    requires Stamped(t, r, ids, at) && FirstSeenBy(t, latest) && at <= latest
    ensures FirstSeenBy(r, latest)
  {
    forall id | id in r.rows ensures r.rows[id].firstSeen <= latest {
      if id in t.rows {
        assert id in ids ==> SameIdentity(t.rows[id], r.rows[id]);
      } else {
        assert FirstWritten(r.rows[id], at);
      }
    }
  }

  lemma SyncSeenBy(db: InventoryDb, node: NodeId, inv: Inventory, at: Instant, latest: Instant)
    requires WfInventory(db) && KeysDistinct(inv) && InventorySeenBy(db, latest) && at <= latest
    ensures InventorySeenBy(SyncInventory(db, node, inv, at), latest)
  {
    hide Active, Sync, SyncNetwork, Stamped, Wf, NoOrphans, FirstSeenBy, ActiveRowIds, NodeAddressIds;
    var r := SyncInventory(db, node, inv, at);
    SyncStamped(db.cpuPackages, node, inv.cpuPackages, at);
    StampedSeenBy(db.cpuPackages, r.cpuPackages, ActiveRowIds(db.cpuPackages, node), at, latest);
    SyncStamped(db.memoryModules, node, inv.memoryModules, at);
    StampedSeenBy(db.memoryModules, r.memoryModules, ActiveRowIds(db.memoryModules, node), at, latest);
    SyncStamped(db.blockDevices, node, inv.blockDevices, at);
    StampedSeenBy(db.blockDevices, r.blockDevices, ActiveRowIds(db.blockDevices, node), at, latest);
    SyncStamped(db.filesystems, node, inv.filesystems, at);
    StampedSeenBy(db.filesystems, r.filesystems, ActiveRowIds(db.filesystems, node), at, latest);
    SyncStamped(db.gpus, node, inv.gpus, at);
    StampedSeenBy(db.gpus, r.gpus, ActiveRowIds(db.gpus, node), at, latest);
    SyncNetworkStamped(db.net, node, inv.networkInterfaces, at);
    StampedSeenBy(db.net.nics, r.net.nics, ActiveRowIds(db.net.nics, node), at, latest);
    StampedSeenBy(db.net.addresses, r.net.addresses, NodeAddressIds(db.net.addresses, node), at, latest);
  }

  ghost predicate ReceivedBy(digest: Digest, run: seq<Step>, latest: Instant)
    requires GoodDigest(digest)
  {
    forall i :: 0 <= i < |run| && Accepted(State(digest, run[..i]), digest, run[i]) ==> run[i].receivedAt <= latest
  }

  lemma ApplySeenBy(db: Db, digest: Digest, s: Step, latest: Instant)
    requires WfDb(db, digest) && GoodDigest(digest) && WfInventory(db.inventory) && InventorySeenBy(db.inventory, latest)
    requires Accepted(db, digest, s) ==> s.receivedAt <= latest
    ensures InventorySeenBy(Apply(db, digest, s).inventory, latest)
  {
    hide WfInventory, InventorySeenBy, SyncInventory, Ingest, Validated, WithSamples, WithCurrent, WithHealth, ContributionOf,
      RowsFailure, HealthFailure, InventoryChecked, ProjectsInventory, ExtendsInventory, WfDb, Resolved, ActiveSetsOf;
    if Accepted(db, digest, s) {
      AcceptedFacts(db, digest, s);
      ValidatedIsSealed(s.report, digest, s.at);
      if db.nodes[s.node].fingerprint != s.report.inventoryFingerprint {
        SyncSeenBy(db.inventory, s.node, Normalize(s.report.inventory), s.receivedAt, latest);
      }
    }
  }

  lemma {:induction false} RowsSeenByLatest(digest: Digest, run: seq<Step>, latest: Instant)
    requires GoodDigest(digest) && ReceivedBy(digest, run, latest)
    ensures InventorySeenBy(State(digest, run).inventory, latest)
  {
    hide WfDb, WfInventory, Apply, Accepted, InventorySeenBy;
    if run == [] {
      NothingSeen(latest);
    } else {
      var n := |run| - 1;
      var p := run[..n];
      assert forall i :: 0 <= i < n ==> p[i] == run[i] && p[..i] == run[..i];
      RowsSeenByLatest(digest, p, latest);
      ApplySeenBy(State(digest, p), digest, run[n], latest);
    }
  }

  lemma NothingSeen(latest: Instant)
    ensures InventorySeenBy(EmptyDb().inventory, latest)
  {}

  lemma SeenByLatest(inv: InventoryDb, node: NodeId, latest: Instant)
    requires InventorySeenBy(inv, latest)
    ensures SeenByThen(inv, node, latest)
  {}

  // ---- the day of an acceptable report has its partitions ----

  ghost predicate LastCycle(run: seq<Step>, i: nat) {
    i < |run| && run[i].Cycle? && forall j :: i < j < |run| ==> !run[j].Cycle?
  }

  lemma QuietPartitions(db: Db, digest: Digest, s: Step)
    requires WfInventory(db.inventory) && !s.Cycle?
    ensures Apply(db, digest, s).history.partitions == db.history.partitions
  {
    hide WfInventory, InventoryChecked, WithCurrent, WithHealth, ContributionOf, ActiveSetsOf, SyncedInventory, RowsFailure, Validated;
  }

  lemma CyclePartitions(db: Db, digest: Digest, s: Step)
    requires WfDb(db, digest) && WfInventory(db.inventory) && s.Cycle?
    ensures Maintained(db.history, s.at).partitions <= Apply(db, digest, s).history.partitions
  {
    hide WfInventory, InventoryChecked, FingerprintsTrue, WfHistory, CurrentAgrees, DaysWhole, SamplesChecked, ResourcesExist,
      HourIs, SameHourly, Cycled, MonthOf, MonthOfHour, Maintained;
    CycleFacts(db.history, s.at);
  }

  lemma {:induction false} PartitionsSinceCycle(digest: Digest, run: seq<Step>, i: nat) returns (h: History)
    requires GoodDigest(digest) && LastCycle(run, i)
    ensures Maintained(h, run[i].at).partitions <= State(digest, run).history.partitions
    decreases |run|
  {
    hide State, WfDb, WfInventory, Apply, Maintained;
    var n := |run| - 1;
    var p := run[..n];
    StateStep(digest, run, n);
    WholeRun(digest, run);
    if i == n {
      h := State(digest, p).history;
      CyclePartitions(State(digest, p), digest, run[n]);
    } else {
      h := PartitionsSinceCycle(digest, p, i);
      QuietPartitions(State(digest, p), digest, run[n]);
    }
  }

  /** During the six days after a cycle, and until the next, every bucket `Validate` lets through has its partitions. */
  lemma BucketsReady(digest: Digest, run: seq<Step>, i: nat, t: Instant, collectedAt: Instant)
    requires GoodDigest(digest) && LastCycle(run, i) && run[i].at <= t <= run[i].at + Days(6)
    requires InTimeWindow(collectedAt, t)
    ensures DayReady(State(digest, run).history.partitions, NodeSamples, MinuteOf(collectedAt))
  {
    hide State, WfDb, WfInventory, Maintained;
    var h := PartitionsSinceCycle(digest, run, i);
    AcceptedBucketsPartitioned(h, run[i].at, t, collectedAt);
  }

  // ---- and no later day has any ----

  lemma CycleRawUpTo(db: Db, digest: Digest, s: Step, last: Day)
    requires WfDb(db, digest) && WfInventory(db.inventory) && s.Cycle?
    requires RawUpTo(db.history.partitions, last) && last <= DayOf(s.at) + 7
    ensures RawUpTo(Apply(db, digest, s).history.partitions, DayOf(s.at) + 7)
  {
    hide WfDb, WfInventory, RolledUpTo, Maintained, DayOf, RawUpTo;
    MaintainedRawUpTo(db.history, s.at, last);
    RolledUpRawUpTo(Maintained(db.history, s.at), HourOf(s.at), 25, DayOf(s.at) + 7);
  }

  lemma DayOfMonotone(a: Instant, b: Instant)
    requires a <= b
    ensures DayOf(a) <= DayOf(b)
  {}

  ghost predicate NoCycle(run: seq<Step>) {
    forall i :: 0 <= i < |run| ==> !run[i].Cycle?
  }

  lemma {:induction false} NoPartitionsYet(digest: Digest, run: seq<Step>)
    requires GoodDigest(digest) && NoCycle(run)
    ensures State(digest, run).history.partitions == {}
  {
    hide WfDb, WfInventory, Apply;
    if run != [] {
      var n := |run| - 1;
      NoPartitionsYet(digest, run[..n]);
      QuietPartitions(State(digest, run[..n]), digest, run[n]);
    }
  }

  /** In every run of forward time: no raw partition lies beyond the seventh day after the last cycle. */
  lemma {:induction false} NothingBeyondTheSeventhDay(digest: Digest, run: seq<Step>, i: nat)
    requires GoodDigest(digest) && Timed(run) && LastCycle(run, i)
    ensures RawUpTo(State(digest, run).history.partitions, DayOf(run[i].at) + 7)
    decreases |run|
  {
    hide State, WfDb, WfInventory, Apply, RawUpTo, DayOf;
    var n := |run| - 1;
    var p := run[..n];
    StateStep(digest, run, n);
    WholeRun(digest, run);
    if i < n {
      NothingBeyondTheSeventhDay(digest, p, i);
      QuietPartitions(State(digest, p), digest, run[n]);
    } else if NoCycle(p) {
      NoPartitionsYet(digest, p);
      NoneUpTo(DayOf(run[n].at) + 7);
      CycleRawUpTo(State(digest, p), digest, run[n], DayOf(run[n].at) + 7);
    } else {
      var c := LastCycleOf(p);
      NothingBeyondTheSeventhDay(digest, p, c);
      DayOfMonotone(p[c].at, run[n].at);
      CycleRawUpTo(State(digest, p), digest, run[n], DayOf(p[c].at) + 7);
    }
  }

  lemma NoneUpTo(last: Day)
    ensures RawUpTo({}, last)
  {}

  lemma {:induction false} LastCycleOf(run: seq<Step>) returns (i: nat)
    requires !NoCycle(run)
    ensures LastCycle(run, i)
  {
    var n := |run| - 1;
    if run[n].Cycle? {
      i := n;
    } else {
      i := LastCycleOf(run[..n]);
      assert run[i] == run[..n][i];
    }
  }

  /** An acceptable bucket has its partition exactly when its day is at most the seventh after the last cycle's. */
  lemma BucketReadyIff(digest: Digest, run: seq<Step>, i: nat, t: Instant, collectedAt: Instant)
    requires GoodDigest(digest) && Timed(run) && LastCycle(run, i) && run[i].at <= t && InTimeWindow(collectedAt, t)
    ensures DayReady(State(digest, run).history.partitions, NodeSamples, MinuteOf(collectedAt)) <==> DayOf(collectedAt) <= DayOf(run[i].at) + 7
  {
    hide State, WfDb, WfInventory, Maintained;
    BucketKeepsHourAndDay(collectedAt);
    NothingBeyondTheSeventhDay(digest, run, i);
    var h := PartitionsSinceCycle(digest, run, i);
    if DayOf(collectedAt) <= DayOf(run[i].at) + 7 {
      DayBefore(run[i].at, collectedAt);
      PartitionsAfterUpkeep(h, run[i].at, DayOf(collectedAt));
    }
  }

  lemma DayBefore(at: Instant, collectedAt: Instant)
    requires at - Hours(24) <= collectedAt
    ensures DayOf(at) - 1 <= DayOf(collectedAt)
  {}

  // ---- commits ----

  /**
   * With receive times in order, a validated report of a known node is committed exactly when its day is at most the
   * seventh after the last cycle's.
   */
  lemma PromptReportCommitsIff(digest: Digest, run: seq<Step>, i: nat, s: Step)
    requires GoodDigest(digest) && Timed(run) && LastCycle(run, i) && run[i].at <= s.at
    requires s.Post? && Validated(s.report, digest, s.at)
    requires s.node in State(digest, run).nodes && State(digest, run).nodes[s.node].token.created <= s.receivedAt
    requires ReceivedBy(digest, run, s.receivedAt)
    ensures Accepted(State(digest, run), digest, s) <==> DayOf(s.report.collectedAt) <= DayOf(run[i].at) + 7
  {
    hide State, WfDb, WfInventory, SeenByThen, DayReady, Ingest, InventorySeenBy, ReceivedBy, Validated, LastCycle, WellFormedReport, Timed,
      DayOf, MinuteOf;
    var db := State(digest, run);
    ValidatedInWindow(s.report, digest, s.at);
    RowsSeenByLatest(digest, run, s.receivedAt);
    SeenByLatest(db.inventory, s.node, s.receivedAt);
    BucketReadyIff(digest, run, i, s.at, s.report.collectedAt);
    TokenIsYounger(db, digest, s.node);
    ValidatedOutcome(db, digest, s.node, s.report, s.at, s.receivedAt);
  }

  /**
   * A validated report of a known node is committed whenever its receive time precedes neither the
   * node's last registration nor the receive time of a committed report, and the last cycle is at most six days old.
   */
  lemma PromptReportCommits(digest: Digest, run: seq<Step>, i: nat, s: Step)
    requires GoodDigest(digest) && LastCycle(run, i) && run[i].at <= s.at <= run[i].at + Days(6)
    requires s.Post? && Validated(s.report, digest, s.at)
    requires s.node in State(digest, run).nodes && State(digest, run).nodes[s.node].token.created <= s.receivedAt
    requires ReceivedBy(digest, run, s.receivedAt)
    ensures Accepted(State(digest, run), digest, s)
  {
    hide State, WfDb, WfInventory, SeenByThen, DayReady, Ingest, InventorySeenBy, ReceivedBy, Validated, LastCycle, WellFormedReport;
    var db := State(digest, run);
    ValidatedInWindow(s.report, digest, s.at);
    RowsSeenByLatest(digest, run, s.receivedAt);
    SeenByLatest(db.inventory, s.node, s.receivedAt);
    BucketsReady(digest, run, i, s.at, s.report.collectedAt);
    TokenIsYounger(db, digest, s.node);
    ValidatedOutcome(db, digest, s.node, s.report, s.at, s.receivedAt);
  }

  /** From the empty database: registered, and with partitions in place, a node gets its first valid report in. */
  lemma FirstReportCommits(digest: Digest, node: NodeId, agent: AgentInfo, registered: Instant, cycled: Instant, s: Step)
    requires GoodDigest(digest) && s.Post? && s.node == node && Validated(s.report, digest, s.at)
    requires registered <= s.receivedAt && cycled <= s.at <= cycled + Days(6)
    ensures Accepted(State(digest, [Register(node, agent, registered), Cycle(cycled)]), digest, s)
  {
    hide WfDb, WfInventory, Cycled, Validated, Ingest;
    var run := [Register(node, agent, registered), Cycle(cycled)];
    assert run[..1] == [run[0]] && run[..0] == [] && [run[0]][..0] == [];
    assert State(digest, []) == EmptyDb();
    assert State(digest, [run[0]]).nodes == Registered(map[], node, agent, registered);
    assert State(digest, run).nodes == Registered(map[], node, agent, registered);
    hide State;
    PromptReportCommits(digest, run, 1, s);
  }

  lemma TokenIsYounger(db: Db, digest: Digest, node: NodeId)
    requires WfDb(db, digest) && node in db.nodes
    ensures db.nodes[node].firstSeen <= db.nodes[node].token.created
  {
    hide WfInventory, InventoryChecked, FingerprintsTrue, WfHistory, DaysWhole, SamplesChecked, ResourcesExist, CurrentAgrees;
    assert NodeChecked(db.nodes[node]);
  }

  lemma ValidatedInWindow(r: Report, digest: Digest, now: Instant)
    requires Validated(r, digest, now)
    ensures InTimeWindow(r.collectedAt, now)
  {
    hide ValidInventory, ValidMetrics, Fingerprint;
  }
}
