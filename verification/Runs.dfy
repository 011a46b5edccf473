/** Runs of the central service: registrations, posted reports and maintenance cycles, each one atomic step. */
module Runs {
  import opened Text
  import opened Clock
  import opened Reports
  import opened Inventories
  import opened InventoryTables
  import opened NetworkTables
  import opened InventoryDatabase
  import opened Samples
  import opened Snapshots
  import opened Rollups
  import opened Partitions
  import opened Database
  import opened Ingestion
  import opened Acceptance

  /**
   * `at` is the instant the step takes effect. A report is validated against it; its receive time was read earlier
   * or later than other transactions', so nothing orders the receive times of a run.
   */
  datatype Step =
    | Register(node: NodeId, agent: AgentInfo, at: Instant)
    | Post(node: NodeId, report: Report, at: Instant, receivedAt: Instant)
    | Cycle(at: Instant)

  /**
   * `RegisterNode`: a known node keeps its fingerprint and its first-seen time; its token is revoked and a new one
   * issued, unless the clock reads earlier than the token's creation, when the whole transaction is rolled back.
   */
  function Registered(nodes: map<NodeId, Node>, node: NodeId, agent: AgentInfo, at: Instant): map<NodeId, Node> {
    if node !in nodes then nodes[node := Node(agent, "", at, at, Token(at, None))]
    else if at < nodes[node].token.created then nodes
    else nodes[node := nodes[node].(agent := agent, token := Token(at, None))]
  }

  ghost predicate Accepted(db: Db, digest: Digest, s: Step)
    requires WfInventory(db.inventory)
  {
    s.Post? && Validated(s.report, digest, s.at) && Ingest(db, s.node, AsReceived(s.report), s.receivedAt).Committed?
  }

  ghost function Apply(db: Db, digest: Digest, s: Step): Db
    requires WfInventory(db.inventory)
  {
    match s
    case Register(node, agent, at) => db.(nodes := Registered(db.nodes, node, agent, at))
    case Post(node, report, at, receivedAt) =>
      if Accepted(db, digest, s) then Ingest(db, node, AsReceived(report), receivedAt).db else db
    case Cycle(at) => db.(history := Cycled(db.history, at))
  }

  function EmptyTable<O, T>(): Table<O, T> { Table(map[], 0) }

  function EmptyDb(): Db {
    Db(map[],
       InventoryDb(EmptyTable(), EmptyTable(), EmptyTable(), EmptyTable(), NetTables(EmptyTable(), EmptyTable()), EmptyTable()),
       History(SampleDb(map[], map[], map[], map[]), HourlyDb(map[], map[], map[], map[]), {}),
       CurrentDb(map[], map[], map[], map[]),
       HealthDb(map[], map[]))
  }

  lemma EmptyIsWf(digest: Digest)
    ensures WfDb(EmptyDb(), digest)
  {}

  // ---- registrations and cycles keep the invariants ----

  lemma RegisterKeepsWf(db: Db, digest: Digest, node: NodeId, agent: AgentInfo, at: Instant)
    requires WfDb(db, digest) && GoodDigest(digest)
    ensures WfDb(db.(nodes := Registered(db.nodes, node, agent, at)), digest)
  {
    hide WfInventory, InventoryChecked, WfHistory, SamplesChecked, ResourcesExist, CurrentAgrees, ProjectsInventory, KeysDistinct, DaysWhole;
  }

  ghost predicate PartOf<K, V>(less: map<K, V>, table: map<K, V>) {
    forall k :: k in less ==> k in table && less[k] == table[k]
  }

  lemma KeptIsPart<K, V>(before: map<K, V>, after: map<K, V>, index: K -> int, cutoff: int)
    requires KeptSince(before, after, index, cutoff)
    ensures PartOf(after, before)
  {}

  /** A cycle only removes samples. */
  lemma CycleRemoves(h: History, at: Instant)
    requires WfHistory(h)
    ensures var s := Cycled(h, at).samples;
      && PartOf(s.main, h.samples.main) && PartOf(s.filesystems, h.samples.filesystems)
      && PartOf(s.network, h.samples.network) && PartOf(s.gpus, h.samples.gpus)
  {
    hide KeptSince, Maintained, PartOf, WfHistory, Cycled, HourIs, SameHourly, MonthOf, DayOf, MonthOfHour;
    CycleFacts(h, at);
    MaintainedRows(h, at);
    var s := Maintained(h, at).samples;
    KeptIsPart(h.samples.main, s.main, MinuteDay, DayOf(at) - 90);
    KeptIsPart(h.samples.filesystems, s.filesystems, DetailDay, DayOf(at) - 90);
    KeptIsPart(h.samples.network, s.network, DetailDay, DayOf(at) - 90);
    KeptIsPart(h.samples.gpus, s.gpus, DetailDay, DayOf(at) - 90);
  }

  lemma FewerSamplesAgree(s: SampleDb, less: SampleDb, c: CurrentDb)
    requires CurrentAgrees(s, c) && DetailsHaveMain(less)
    requires PartOf(less.main, s.main) && PartOf(less.filesystems, s.filesystems)
    requires PartOf(less.network, s.network) && PartOf(less.gpus, s.gpus)
    ensures CurrentAgrees(less, c)
  {
    hide Agrees;
    AgreesShrinks(s.filesystems, less.filesystems, c.filesystems, PlainView(), PlainView());
    AgreesShrinks(s.network, less.network, c.network, NetworkView(s.main), NetworkView(less.main));
    AgreesShrinks(s.gpus, less.gpus, c.gpus, GpuView(s.main), GpuView(less.main));
  }

  lemma CycledDaysWhole(h: History, at: Instant)
    requires DaysWhole(h.partitions)
    ensures DaysWhole(Cycled(h, at).partitions)
  {
    hide MonthOf, DayOf, MonthOfHour, HourOf, RollupHour;
    EnsuredHas(h, at);
    var e := Ensured(h, at);
    hide Ensured;
    var m := Maintained(h, at);
    assert m.partitions == e.partitions - ExpiredOf(e, at);
    forall p | p in m.partitions && IsRaw(p.parent) ensures RawPartitions(p.index) <= m.partitions {
      assert p in e.partitions && !Expired(p, at);
      assert p in h.partitions ==> RawPartitions(p.index) <= h.partitions;
      forall q | q in RawPartitions(p.index) ensures q in m.partitions {
        assert q in e.partitions && !Expired(q, at);
      }
    }
    hide Maintained;
    RolledUpRaw(m, HourOf(at), 25);
  }

  lemma {:induction false} RolledUpRaw(h: History, current: Hour, n: nat)
    ensures forall p: Partition :: IsRaw(p.parent) ==> (p in RolledUpTo(h, current, n).partitions <==> p in h.partitions)
  {
    hide RollupHour, MonthOfHour;
    if n > 0 {
      RolledUpRaw(h, current, n - 1);
    }
  }

  lemma FewerSamplesFit(s: SampleDb, less: SampleDb, inv: InventoryDb)
    requires SamplesChecked(s) && ResourcesExist(s, inv)
    requires PartOf(less.main, s.main) && PartOf(less.filesystems, s.filesystems)
    requires PartOf(less.network, s.network) && PartOf(less.gpus, s.gpus)
    ensures SamplesChecked(less) && ResourcesExist(less, inv)
  {
    hide Owned, MainChecked, FilesystemChecked, GpuChecked;
  }

  lemma CycledWf(h: History, at: Instant)
    requires WfHistory(h)
    ensures WfHistory(Cycled(h, at)) && DetailsHaveMain(Cycled(h, at).samples)
  {
    CycleFacts(h, at);
    hide Cycled;
  }

  lemma CycleKeepsWf(db: Db, digest: Digest, at: Instant)
    requires WfDb(db, digest)
    ensures WfDb(db.(history := Cycled(db.history, at)), digest)
  {
    hide Cycled, WfInventory, InventoryChecked, FingerprintsTrue, WfHistory, CurrentAgrees, DetailsHaveMain, DaysWhole,
      SamplesChecked, ResourcesExist, PartOf;
    CycledWf(db.history, at);
    CycleRemoves(db.history, at);
    var s := Cycled(db.history, at).samples;
    FewerSamplesAgree(db.history.samples, s, db.current);
    FewerSamplesFit(db.history.samples, s, db.inventory);
    CycledDaysWhole(db.history, at);
  }

  // ---- every run ----

  lemma AcceptedFacts(db: Db, digest: Digest, s: Step)
    requires WfDb(db, digest) && GoodDigest(digest) && Accepted(db, digest, s)
    ensures var after := Apply(db, digest, s);
      && IsStep(db, after, s.node, AsReceived(s.report), s.receivedAt)
      && WfDb(after, digest) && ExtendsInventory(db.inventory, after.inventory)
      && ProjectsInventory(after.inventory, s.node, Normalize(s.report.inventory))
  {
    var r := AsReceived(s.report);
    assert r.inventory == Normalize(s.report.inventory);
    ValidatedIsSealed(s.report, digest, s.at);
    CommittedIsStep(db, s.node, r, s.receivedAt);
    IngestKeepsWf(db, digest, s.node, r, s.receivedAt);
    assert Apply(db, digest, s) == Ingest(db, s.node, r, s.receivedAt).db;
  }

  lemma ApplyKeepsWf(db: Db, digest: Digest, s: Step)
    requires WfDb(db, digest) && GoodDigest(digest)
    ensures WfDb(Apply(db, digest, s), digest)
  {
    var after := Apply(db, digest, s);
    match s {
      case Register(node, agent, at) =>
        assert after == db.(nodes := Registered(db.nodes, node, agent, at));
        hide *;
        RegisterKeepsWf(db, digest, node, agent, at);
      case Post(_, _, _, _) =>
        if Accepted(db, digest, s) {
          hide *;
          AcceptedFacts(db, digest, s);
        } else {
          assert after == db;
        }
      case Cycle(at) =>
        assert after == db.(history := Cycled(db.history, at));
        hide *;
        CycleKeepsWf(db, digest, at);
    }
  }

  /** The database after a run, which satisfies every invariant. */
  ghost function State(digest: Digest, run: seq<Step>): (db: Db)
    requires GoodDigest(digest)
    ensures WfDb(db, digest) && WfInventory(db.inventory)
  {
    if run == [] then
      EmptyIsWf(digest);
      EmptyDb()
    else
      var n := |run| - 1;
      ApplyKeepsWf(State(digest, run[..n]), digest, run[n]);
      Apply(State(digest, run[..n]), digest, run[n])
  }

  lemma AcceptedIsValid(db: Db, digest: Digest, s: Step)
    requires WfInventory(db.inventory) && Accepted(db, digest, s)
    ensures s.Post? && ValidInventory(s.report.inventory) && ValidMetrics(s.report.inventory, s.report.metrics)
  {
    hide WfInventory, Ingest, ValidInventory, ValidMetrics, Fingerprint;
  }

  /** The steps happen in the order of their times. */
  ghost predicate Timed(run: seq<Step>) {
    forall i, j :: 0 <= i < j < |run| ==> run[i].at <= run[j].at
  }

  lemma StateStep(digest: Digest, run: seq<Step>, i: nat)
    requires GoodDigest(digest) && i < |run|
    ensures State(digest, run[..i + 1]) == Apply(State(digest, run[..i]), digest, run[i])
  {
    assert run[..i + 1][..i] == run[..i];
  }

  lemma WholeRun(digest: Digest, run: seq<Step>)
    requires GoodDigest(digest)
    ensures State(digest, run[..|run|]) == State(digest, run)
  {
    assert run[..|run|] == run;
  }
}
