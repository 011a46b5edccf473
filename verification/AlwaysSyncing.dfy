/**
 * Skipping the sync of an unchanged inventory, compared with a second service that never skips it
 * (internal/store/ingest.go:72-76).
 */
module AlwaysSyncing {
  import opened Text
  import opened Clock
  import opened Reports
  import opened Inventories
  import opened InventoryTables
  import opened NetworkTables
  import opened NetworkFacts
  import opened InventoryDatabase
  import opened Samples
  import opened Rollups
  import opened Partitions
  import opened Database
  import opened Ingestion
  import opened Acceptance
  import opened Runs

  // ---- the other service ----

  /** The database as a transaction reads it that takes no fingerprint for known. */
  function Forgetful(db: Db, node: NodeId): Db {
    if node in db.nodes then db.(nodes := db.nodes[node := db.nodes[node].(fingerprint := "")]) else db
  }

  ghost predicate AcceptedAlways(db: Db, digest: Digest, s: Step)
    requires WfInventory(db.inventory)
  {
    s.Post? && Validated(s.report, digest, s.at)
    && Ingest(Forgetful(db, s.node), s.node, AsReceived(s.report), s.receivedAt).Committed?
  }

  /** The same steps and the same transaction, except that every report is synced. */
  ghost function ApplyAlways(db: Db, digest: Digest, s: Step): Db
    requires WfInventory(db.inventory)
  {
    if !s.Post? then Apply(db, digest, s)
    else if AcceptedAlways(db, digest, s) then Ingest(Forgetful(db, s.node), s.node, AsReceived(s.report), s.receivedAt).db
    else db
  }

  lemma ForgetfulWf(db: Db, digest: Digest, node: NodeId)
    requires WfDb(db, digest) && GoodDigest(digest)
    ensures WfDb(Forgetful(db, node), digest)
  {
    hide WfInventory, InventoryChecked, WfHistory, DaysWhole, SamplesChecked, ResourcesExist, CurrentAgrees, ProjectsInventory, KeysDistinct;
    if node in db.nodes {
      var f := Forgetful(db, node);
      assert forall n :: n in f.nodes ==> NodeChecked(db.nodes[n]) && NodeChecked(f.nodes[n]);
    }
  }

  lemma AlwaysAccepts(db: Db, digest: Digest, s: Step)
    requires WfDb(db, digest) && GoodDigest(digest) && WfInventory(db.inventory) && AcceptedAlways(db, digest, s)
    ensures var f, after := Forgetful(db, s.node), ApplyAlways(db, digest, s);
      && WfDb(after, digest) && WfInventory(f.inventory) && IsStep(f, after, s.node, AsReceived(s.report), s.receivedAt)
  {
    var f := Forgetful(db, s.node);
    ForgetfulWf(db, digest, s.node);
    hide WfDb, WfInventory, Validated, Ingest, IsStep, Normalize;
    ValidatedIsSealed(s.report, digest, s.at);
    CommittedIsStep(f, s.node, AsReceived(s.report), s.receivedAt);
    IngestKeepsWf(f, digest, s.node, AsReceived(s.report), s.receivedAt);
  }

  lemma ApplyAlwaysWf(db: Db, digest: Digest, s: Step)
    requires WfDb(db, digest) && GoodDigest(digest) && WfInventory(db.inventory)
    ensures WfDb(ApplyAlways(db, digest, s), digest)
  {
    hide WfDb, WfInventory, IsStep, Apply, Ingest, Validated;
    if !s.Post? {
      ApplyKeepsWf(db, digest, s);
    } else if AcceptedAlways(db, digest, s) {
      AlwaysAccepts(db, digest, s);
    }
  }

  /** The other service's database after a run. It keeps the same invariants. */
  ghost function AlwaysState(digest: Digest, run: seq<Step>): (db: Db)
    requires GoodDigest(digest)
    ensures WfDb(db, digest) && WfInventory(db.inventory)
  {
    if run == [] then
      EmptyIsWf(digest);
      EmptyDb()
    else
      var n := |run| - 1;
      ApplyAlwaysWf(AlwaysState(digest, run[..n]), digest, run[n]);
      ApplyAlways(AlwaysState(digest, run[..n]), digest, run[n])
  }

  // ---- how the two databases compare ----

  ghost predicate NodesAlike(a: map<NodeId, Node>, b: map<NodeId, Node>) {
    && a.Keys == b.Keys
    && forall n :: n in a ==>
         a[n].fingerprint == b[n].fingerprint && a[n].firstSeen == b[n].firstSeen && a[n].token.created == b[n].token.created
  }

  /** The same fingerprints, partitions and inventory rows with the same ids; rows may differ in last-seen times. */
  ghost predicate AlikeButSeen(a: Db, b: Db) {
    && NodesAlike(a.nodes, b.nodes)
    && InventorySameButLastSeen(a.inventory, b.inventory)
    && a.history.partitions == b.history.partitions
  }

  lemma FirstSeenAlike<O, T>(a: Table<O, T>, b: Table<O, T>, ids: set<Id>, jds: set<Id>, at: Instant)
    requires SameButLastSeen(a, b) && ids == jds && ids <= a.rows.Keys
    ensures (forall id :: id in ids ==> a.rows[id].firstSeen <= at) <==> (forall id :: id in jds ==> b.rows[id].firstSeen <= at)
  {
    assert forall id :: id in ids ==> b.rows[id] == a.rows[id].(lastSeen := b.rows[id].lastSeen);
  }

  lemma ActiveIdsAlike<O, T>(a: Table<O, T>, b: Table<O, T>, o: O)
    requires SameButLastSeen(a, b)
    ensures ActiveRowIds(a, o) == ActiveRowIds(b, o) && ActiveRowIds(a, o) <= a.rows.Keys
  {
    assert forall id :: id in a.rows ==> b.rows[id] == a.rows[id].(lastSeen := b.rows[id].lastSeen);
  }

  lemma NodeAddressIdsAlike(a: Table<AddressOwner, string>, b: Table<AddressOwner, string>, node: NodeId)
    requires SameButLastSeen(a, b)
    ensures NodeAddressIds(a, node) == NodeAddressIds(b, node) && NodeAddressIds(a, node) <= a.rows.Keys
  {
    assert forall id :: id in a.rows ==> b.rows[id] == a.rows[id].(lastSeen := b.rows[id].lastSeen);
  }

  lemma SeenByThenAlike(a: InventoryDb, b: InventoryDb, node: NodeId, at: Instant)
    requires InventorySameButLastSeen(a, b)
    ensures SeenByThen(a, node, at) <==> SeenByThen(b, node, at)
  {
    hide SameButLastSeen, ActiveRowIds, NodeAddressIds;
    ActiveIdsAlike(a.cpuPackages, b.cpuPackages, node);
    FirstSeenAlike(a.cpuPackages, b.cpuPackages, ActiveRowIds(a.cpuPackages, node), ActiveRowIds(b.cpuPackages, node), at);
    ActiveIdsAlike(a.memoryModules, b.memoryModules, node);
    FirstSeenAlike(a.memoryModules, b.memoryModules, ActiveRowIds(a.memoryModules, node), ActiveRowIds(b.memoryModules, node), at);
    ActiveIdsAlike(a.blockDevices, b.blockDevices, node);
    FirstSeenAlike(a.blockDevices, b.blockDevices, ActiveRowIds(a.blockDevices, node), ActiveRowIds(b.blockDevices, node), at);
    ActiveIdsAlike(a.filesystems, b.filesystems, node);
    FirstSeenAlike(a.filesystems, b.filesystems, ActiveRowIds(a.filesystems, node), ActiveRowIds(b.filesystems, node), at);
    ActiveIdsAlike(a.net.nics, b.net.nics, node);
    FirstSeenAlike(a.net.nics, b.net.nics, ActiveRowIds(a.net.nics, node), ActiveRowIds(b.net.nics, node), at);
    NodeAddressIdsAlike(a.net.addresses, b.net.addresses, node);
    FirstSeenAlike(a.net.addresses, b.net.addresses, NodeAddressIds(a.net.addresses, node), NodeAddressIds(b.net.addresses, node), at);
    ActiveIdsAlike(a.gpus, b.gpus, node);
    FirstSeenAlike(a.gpus, b.gpus, ActiveRowIds(a.gpus, node), ActiveRowIds(b.gpus, node), at);
  }

  // ---- partitions do not depend on rows ----

  lemma CycledPartitionsAlike(a: History, b: History, at: Instant)
    requires a.partitions == b.partitions
    ensures Cycled(a, at).partitions == Cycled(b, at).partitions
  {
    hide MonthOf, DayOf, MonthOfHour, HourOf, RollupHour, RowsLeft, Expired;
    assert Maintained(a, at).partitions == Maintained(b, at).partitions;
    hide Maintained;
    RolledUpPartitionsAlike(Maintained(a, at), Maintained(b, at), HourOf(at), 25);
  }

  lemma {:induction false} RolledUpPartitionsAlike(a: History, b: History, current: Hour, n: nat)
    requires a.partitions == b.partitions
    ensures RolledUpTo(a, current, n).partitions == RolledUpTo(b, current, n).partitions
  {
    hide RollupHour, MonthOfHour;
    if n > 0 {
      RolledUpPartitionsAlike(a, b, current, n - 1);
    }
  }

  // ---- one step ----

  /** Which of the two commits a validated report: the other service also asks that no synced row is younger. */
  lemma WhoCommits(db: Db, always: Db, digest: Digest, s: Step)
    requires WfDb(db, digest) && WfDb(always, digest) && GoodDigest(digest) && WfInventory(db.inventory) && WfInventory(always.inventory)
    requires AlikeButSeen(db, always) && s.Post?
    ensures AcceptedAlways(always, digest, s)
            <==> Accepted(db, digest, s) && SeenByThen(db.inventory, s.node, s.receivedAt)
    ensures Accepted(db, digest, s) && !AcceptedAlways(always, digest, s) ==>
              s.node in db.nodes && db.nodes[s.node].fingerprint == s.report.inventoryFingerprint
  {
    hide WfDb, WfInventory, Ingest, Validated, DayReady, SeenByThen, InventorySameButLastSeen;
    if Validated(s.report, digest, s.at) {
      var f := Forgetful(always, s.node);
      ForgetfulWf(always, digest, s.node);
      ValidatedOutcome(db, digest, s.node, s.report, s.at, s.receivedAt);
      ValidatedOutcome(f, digest, s.node, s.report, s.at, s.receivedAt);
      SeenByThenAlike(db.inventory, always.inventory, s.node, s.receivedAt);
      FingerprintIsSet(s.report, digest, s.at);
      assert s.node in db.nodes <==> s.node in always.nodes;
    }
  }

  lemma FingerprintIsSet(r: Report, digest: Digest, now: Instant)
    requires GoodDigest(digest) && Validated(r, digest, now)
    ensures r.inventoryFingerprint != ""
  {
    hide WellFormedReport, Normalize;
  }

  lemma StepsAlike(db: Db, always: Db, digest: Digest, s: Step)
    requires WfDb(db, digest) && WfDb(always, digest) && GoodDigest(digest) && WfInventory(db.inventory) && WfInventory(always.inventory)
    requires AlikeButSeen(db, always)
    ensures AlikeButSeen(Apply(db, digest, s), ApplyAlways(always, digest, s))
  {
    hide WfDb, WfInventory, Ingest, Validated, Cycled, InventorySameButLastSeen, Accepted, AcceptedAlways;
    match s {
      case Register(node, agent, at) =>
      case Cycle(at) => CycledPartitionsAlike(db.history, always.history, at);
      case Post(node, report, at, receivedAt) =>
        WhoCommits(db, always, digest, s);
        if AcceptedAlways(always, digest, s) {
          BothCommit(db, always, digest, s);
        } else if Accepted(db, digest, s) {
          OnlySkippingCommits(db, digest, s);
          UnsyncedAlike(db, Apply(db, digest, s), always);
        }
    }
  }

  lemma BothCommit(db: Db, always: Db, digest: Digest, s: Step)
    requires WfDb(db, digest) && WfDb(always, digest) && GoodDigest(digest) && WfInventory(db.inventory) && WfInventory(always.inventory)
    requires AlikeButSeen(db, always) && Accepted(db, digest, s) && AcceptedAlways(always, digest, s)
    ensures AlikeButSeen(Apply(db, digest, s), ApplyAlways(always, digest, s))
  {
    hide WfDb, WfInventory, Ingest, Apply, ApplyAlways, Accepted, AcceptedAlways, InventoryChecked, RowsFailure, HealthFailure, WithSamples,
      WithCurrent, WithHealth, ContributionOf, Resolved, ActiveSetsOf, ProjectsInventory, ExtendsInventory, InventorySameButLastSeen, Normalize,
      SyncInventory;
    AcceptedFacts(db, digest, s);
    AlwaysAccepts(always, digest, s);
    SealedPost(always, digest, s);
    InventoriesAlike(db, always, digest, s);
  }

  lemma SealedPost(always: Db, digest: Digest, s: Step)
    requires WfInventory(always.inventory) && AcceptedAlways(always, digest, s) && GoodDigest(digest)
    ensures s.Post? && Sealed(AsReceived(s.report), digest) && s.report.inventoryFingerprint != ""
  {
    hide WfInventory, Ingest, Validated, Normalize, Sealed;
    ValidatedIsSealed(s.report, digest, s.at);
    FingerprintIsSet(s.report, digest, s.at);
  }

  /** Synced or not, the rows come out alike. */
  lemma InventoriesAlike(db: Db, always: Db, digest: Digest, s: Step)
    requires WfDb(db, digest) && GoodDigest(digest) && WfInventory(db.inventory) && WfInventory(always.inventory)
    requires s.Post? && s.node in db.nodes && s.node in always.nodes && s.report.inventoryFingerprint != ""
    requires InventorySameButLastSeen(db.inventory, always.inventory) && Sealed(AsReceived(s.report), digest)
    ensures InventorySameButLastSeen(SyncedInventory(db, s.node, AsReceived(s.report), s.receivedAt),
                                     SyncedInventory(Forgetful(always, s.node), s.node, AsReceived(s.report), s.receivedAt))
  {
    hide WfInventory, InventoryChecked, WfHistory, DaysWhole, SamplesChecked, ResourcesExist, CurrentAgrees, ProjectsInventory, KeysDistinct,
      InventorySameButLastSeen, SyncInventory, Normalize, NodesChecked;
    var r := AsReceived(s.report);
    assert r.inventoryFingerprint == s.report.inventoryFingerprint;
    InventorySyncAlike(db.inventory, always.inventory, s.node, r.inventory, s.receivedAt);
    if db.nodes[s.node].fingerprint == r.inventoryFingerprint {
      assert ProjectsInventory(db.inventory, s.node, r.inventory);
      SyncInventoryOfProjected(db.inventory, s.node, r.inventory, s.receivedAt);
      InventorySameTransitive(db.inventory, SyncInventory(db.inventory, s.node, r.inventory, s.receivedAt),
                              SyncInventory(always.inventory, s.node, r.inventory, s.receivedAt));
    }
  }

  /** A commit the other service refuses was not synced. */
  lemma OnlySkippingCommits(db: Db, digest: Digest, s: Step)
    requires WfDb(db, digest) && GoodDigest(digest) && WfInventory(db.inventory) && Accepted(db, digest, s)
    requires s.Post? && s.node in db.nodes && db.nodes[s.node].fingerprint == s.report.inventoryFingerprint
    ensures var after := Apply(db, digest, s);
      && after.inventory == db.inventory && after.history.partitions == db.history.partitions
      && NodesAlike(after.nodes, db.nodes)
  {
    hide WfDb, WfInventory, Ingest, Apply, Accepted, InventoryChecked, RowsFailure, HealthFailure, WithSamples, WithCurrent, WithHealth,
      ContributionOf, Resolved, ActiveSetsOf, ProjectsInventory, ExtendsInventory, Normalize, SyncInventory;
    AcceptedFacts(db, digest, s);
    assert AsReceived(s.report).inventoryFingerprint == s.report.inventoryFingerprint;
  }

  lemma UnsyncedAlike(db: Db, after: Db, always: Db)
    requires AlikeButSeen(db, always) && NodesAlike(after.nodes, db.nodes)
    requires after.inventory == db.inventory && after.history.partitions == db.history.partitions
    ensures AlikeButSeen(after, always)
  {
    hide InventorySameButLastSeen;
  }

  // ---- every run ----

  lemma NothingYet()
    ensures AlikeButSeen(EmptyDb(), EmptyDb())
  {}

  /**
   * Over every run, registrations and rollbacks included, the service that skips and the service that never skips
   * have the same fingerprints and the same inventory rows with the same ids; only last-seen times differ.
   */
  lemma {:induction false} SkippingRefinesSyncing(digest: Digest, run: seq<Step>)
    requires GoodDigest(digest)
    ensures AlikeButSeen(State(digest, run), AlwaysState(digest, run))
  {
    hide WfDb, WfInventory, Apply, ApplyAlways, AlikeButSeen;
    if run == [] {
      NothingYet();
    } else {
      var n := |run| - 1;
      SkippingRefinesSyncing(digest, run[..n]);
      StepsAlike(State(digest, run[..n]), AlwaysState(digest, run[..n]), digest, run[n]);
    }
  }

  /** Exactly the reports the other service would lose: unchanged ones received before an active row was first seen. */
  lemma LostByAlwaysSyncing(digest: Digest, run: seq<Step>, s: Step)
    requires GoodDigest(digest) && s.Post? && Accepted(State(digest, run), digest, s)
    ensures AcceptedAlways(AlwaysState(digest, run), digest, s) <==> SeenByThen(State(digest, run).inventory, s.node, s.receivedAt)
    ensures !SeenByThen(State(digest, run).inventory, s.node, s.receivedAt) ==>
              s.node in State(digest, run).nodes && State(digest, run).nodes[s.node].fingerprint == s.report.inventoryFingerprint
  {
    hide State, AlwaysState, WfDb, WfInventory, Accepted, AcceptedAlways, AlikeButSeen, SeenByThen;
    SkippingRefinesSyncing(digest, run);
    WhoCommits(State(digest, run), AlwaysState(digest, run), digest, s);
  }
}
