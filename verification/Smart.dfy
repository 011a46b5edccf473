/** Merging SMART samples into the inventory (internal/agent/health.go:183-405). */
module Smart {
  import opened Text
  import opened Numbers
  import opened Sorting
  import opened Reports
  import opened Inventories
  import opened Checksums

  datatype SmartDevice = SmartDevice(name: string, kind: string, protocol: string)

  datatype Attribute = Attribute(id: int, value: string, raw: string)

  datatype NvmeLog = NvmeLog(
    criticalWarning: string, temperature: Option<real>, percentageUsed: Option<real>, mediaErrors: string, powerOnHours: string)

  /** A smartctl document; numbers are kept as their JSON text. */
  datatype SmartDoc = SmartDoc(
    exitStatus: int, device: SmartDevice, modelName: string, serialNumber: string,
    scsiVendor: string, scsiProduct: string, scsiModelName: string, logicalUnitId: string,
    rotationRate: Option<nat>, capacity: string, available: bool, enabled: bool, passed: Option<bool>,
    temperature: Option<real>, powerOnHours: string, attributes: seq<Attribute>, errorLogCount: string,
    nvme: NvmeLog, scsiUncorrected: seq<string>)

  datatype Sample = Sample(scanned: SmartDevice, doc: SmartDoc, ok: bool)

  type Device = Item<BlockDevice>

  // ---- small pieces ----

  function FirstNonEmpty(values: seq<string>): (r: string)
    ensures Trimmed(r)
    ensures (exists i :: 0 <= i < |values| && !Blank(values[i])) ==> r != ""
  {
    if values == [] then ""
    else if !Blank(values[0]) then TrimSpace(values[0])
    else
      assert forall i :: 0 < i < |values| ==> values[i] == values[1..][i - 1];
      FirstNonEmpty(values[1..])
  }

  /** A JSON number that is an unsigned integer PostgreSQL's bigint can hold. */
  function SmartUint(text: string): (r: Option<nat>)
    ensures OptionalBigint(r)
  {
    var parsed := ParseUint(TrimSpace(text));
    if parsed.Some? && parsed.value <= MAX_BIGINT then parsed else None
  }

  predicate Contains(s: string, part: string) {
    exists i :: 0 <= i <= |s| && part <= s[i..]
  }

  predicate IsRaidType(kind: string) {
    var lower := ToLower(TrimSpace(kind));
    exists prefix :: prefix in {"megaraid,", "aacraid,", "areca,", "3ware,", "hpt,", "cciss,", "sssraid,"}
                     && (prefix <= lower || Contains(lower, "+" + prefix))
  }

  predicate Bit(status: int, weight: nat)
    requires weight > 0
  {
    (status / weight) % 2 == 1
  }

  predicate NonZero(value: Option<nat>) { value.Some? && value.value > 0 }

  // ---- the device ----

  function BlockDeviceFromSmart(s: Sample): Device {
    var doc := s.doc;
    var info := if doc.device.name == "" then s.scanned else doc.device;
    var kind := FirstNonEmpty([info.kind, s.scanned.kind]);
    Item(
      FirstNonEmpty([doc.serialNumber, doc.logicalUnitId, info.name + "|" + kind]),
      BlockDevice(
        FirstNonEmpty([info.name, s.scanned.name]), "disk", doc.scsiVendor,
        FirstNonEmpty([doc.modelName, doc.scsiModelName, TrimSpace(doc.scsiVendor + " " + doc.scsiProduct)]),
        doc.serialNumber, doc.logicalUnitId,
        if SmartUint(doc.capacity).Some? then SmartUint(doc.capacity).value else 0,
        if doc.rotationRate.Some? then Some(doc.rotationRate.value > 0) else None,
        FirstNonEmpty([info.protocol, s.scanned.protocol]), kind, IsRaidType(kind)))
  }

  predicate SameDevice(d: BlockDevice, c: BlockDevice) {
    || (c.serialNumber != "" && c.serialNumber == d.serialNumber)
    || (c.wwn != "" && c.wwn == d.wwn)
    || (c.deviceName != "" && c.deviceName == d.deviceName && !c.raidPassthrough)
  }

  /** The index of the first device the candidate is, or the number of devices. */
  function MatchIndex(devices: seq<Device>, c: BlockDevice): (i: nat)
    ensures i <= |devices| && (i < |devices| ==> SameDevice(devices[i].attrs, c))
    ensures forall j :: 0 <= j < i ==> !SameDevice(devices[j].attrs, c)
  {
    if devices == [] || SameDevice(devices[0].attrs, c) then 0
    else
      assert forall j :: 0 < j < |devices| ==> devices[j] == devices[1..][j - 1];
      1 + MatchIndex(devices[1..], c)
  }

  method MatchBlockDevice(devices: seq<Device>, c: BlockDevice) returns (index: int)
    ensures index == if MatchIndex(devices, c) < |devices| then MatchIndex(devices, c) else -1
  {
    for i := 0 to |devices|
      invariant forall j :: 0 <= j < i ==> !SameDevice(devices[j].attrs, c)
    {
      if SameDevice(devices[i].attrs, c) {
        return i;
      }
    }
    return -1;
  }

  /** Key, name and kind stay; what SMART knows better is taken over. */
  function MergeBlockDevice(target: BlockDevice, source: BlockDevice): BlockDevice {
    target.(
      vendor := if source.vendor != "" then source.vendor else target.vendor,
      modelName := if source.modelName != "" then source.modelName else target.modelName,
      serialNumber := if source.serialNumber != "" then source.serialNumber else target.serialNumber,
      wwn := if source.wwn != "" then source.wwn else target.wwn,
      sizeBytes := if source.sizeBytes > 0 then source.sizeBytes else target.sizeBytes,
      rotational := if source.rotational.Some? then source.rotational else target.rotational,
      protocol := source.protocol, smartDeviceType := source.smartDeviceType, raidPassthrough := source.raidPassthrough)
  }

  // ---- the health ----

  /** The SCSI counters that can be read, added as long as the sum fits 64 bits. */
  function ScsiErrors(counters: seq<string>): (sum: nat)
    ensures sum < TWO_64
  {
    if counters == [] then 0
    else
      var n := |counters| - 1;
      var earlier := ScsiErrors(counters[..n]);
      var value := SmartUint(counters[n]);
      if value.Some? && TWO_64 - 1 - earlier >= value.value then earlier + value.value else earlier
  }

  predicate HasScsiErrors(counters: seq<string>) {
    exists i :: 0 <= i < |counters| && SmartUint(counters[i]).Some?
  }

  /** The last attribute with the id decides, even when its text is no number. */
  function LastAttribute(table: seq<Attribute>, id: int): Option<Attribute> {
    if table == [] then None
    else if table[|table| - 1].id == id then Some(table[|table| - 1])
    else LastAttribute(table[..|table| - 1], id)
  }

  function RawOf(a: Option<Attribute>): (r: Option<nat>)
    ensures OptionalBigint(r)
  {
    if a.Some? then SmartUint(a.value.raw) else None
  }

  function ValueOf(a: Option<Attribute>): (r: Option<nat>)
    ensures OptionalBigint(r)
  {
    if a.Some? then SmartUint(a.value.value) else None
  }

  function StatusOf(passed: Option<bool>): string {
    if passed.None? then "unknown" else if passed.value then "passed" else "failed"
  }

  function ErrorCountOf(doc: SmartDoc): Option<nat> {
    if HasScsiErrors(doc.scsiUncorrected) then Some(ScsiErrors(doc.scsiUncorrected))
    else if SmartUint(doc.nvme.mediaErrors).Some? then SmartUint(doc.nvme.mediaErrors)
    else SmartUint(doc.errorLogCount)
  }

  /** The metric before its risk is assessed. */
  function Measured(doc: SmartDoc): StorageHealth {
    StorageHealth(
      doc.available, doc.enabled, StatusOf(doc.passed), "unknown", [],
      if doc.nvme.temperature.Some? then doc.nvme.temperature else doc.temperature,
      if SmartUint(doc.nvme.powerOnHours).Some? then SmartUint(doc.nvme.powerOnHours) else SmartUint(doc.powerOnHours),
      ErrorCountOf(doc),
      ValueOf(LastAttribute(doc.attributes, 1)), RawOf(LastAttribute(doc.attributes, 1)),
      RawOf(LastAttribute(doc.attributes, 5)), RawOf(LastAttribute(doc.attributes, 197)), RawOf(LastAttribute(doc.attributes, 198)),
      doc.nvme.percentageUsed)
  }

  datatype Risk = Risk(present: bool, critical: bool, reason: string)

  function Risks(doc: SmartDoc, m: StorageHealth): seq<Risk> {
    var worn := m.percentageUsed.Some? && m.percentageUsed.value >= 100.0;
    var wearing := m.percentageUsed.Some? && 90.0 <= m.percentageUsed.value < 100.0;
    [Risk(m.smartStatus == "failed" || Bit(doc.exitStatus, 8), true, "smart_failed"),
     Risk(Bit(doc.exitStatus, 16), true, "prefail_attribute"),
     Risk(NonZero(SmartUint(doc.nvme.criticalWarning)), true, "nvme_critical_warning"),
     Risk(NonZero(m.pendingSectors), true, "pending_sectors"),
     Risk(NonZero(m.uncorrectableSectors), true, "uncorrectable_sectors"),
     Risk(NonZero(m.reallocatedSectors), false, "reallocated_sectors"),
     Risk(NonZero(m.errorCount), false, "device_errors"),
     Risk(Bit(doc.exitStatus, 32), false, "age_attribute"),
     Risk(Bit(doc.exitStatus, 64), false, "device_error_log"),
     Risk(Bit(doc.exitStatus, 128), false, "self_test_errors"),
     Risk(worn, true, "wear_exhausted"),
     Risk(wearing, false, "wear_high")]
  }

  function Reasons(risks: seq<Risk>): seq<string> {
    if risks == [] then []
    else Reasons(risks[..|risks| - 1]) + if risks[|risks| - 1].present then [risks[|risks| - 1].reason] else []
  }

  predicate CriticalReason(reason: string) {
    reason in {"smart_failed", "prefail_attribute", "nvme_critical_warning", "pending_sectors", "uncorrectable_sectors", "wear_exhausted"}
  }

  /** The level the reasons and the status dictate. */
  function LevelOf(reasons: seq<string>, status: string): string {
    if exists r :: r in reasons && CriticalReason(r) then "critical"
    else if reasons != [] then "warning"
    else if status == "passed" then "healthy"
    else "unknown"
  }

  function HealthOf(doc: SmartDoc): StorageHealth {
    var m := Measured(doc);
    var reasons := SortBy(Itself, Reasons(Risks(doc, m)));
    m.(riskReasons := reasons, riskLevel := LevelOf(reasons, m.smartStatus))
  }

  /** `storageHealthFromSMART`: the loops over counters and attributes, then the reasons with their two flags. */
  method StorageHealthFromSmart(doc: SmartDoc) returns (metric: StorageHealth)
    ensures metric == HealthOf(doc)
  {
    hide SmartUint, Risks, Reasons, LastAttribute, HasScsiErrors, ErrorCountOf, LevelOf;
    var errors := CountErrors(doc);
    var normalized, raw, reallocated, pending, uncorrectable := ScanAttributes(doc.attributes);
    metric := StorageHealth(
      doc.available, doc.enabled, StatusOf(doc.passed), "unknown", [],
      if doc.nvme.temperature.Some? then doc.nvme.temperature else doc.temperature,
      if SmartUint(doc.nvme.powerOnHours).Some? then SmartUint(doc.nvme.powerOnHours) else SmartUint(doc.powerOnHours),
      errors, normalized, raw, reallocated, pending, uncorrectable, doc.nvme.percentageUsed);
    var reasons, level := AssessRisk(doc, metric);
    metric := metric.(riskReasons := reasons, riskLevel := level);
  }

  method CountErrors(doc: SmartDoc) returns (errors: Option<nat>)
    ensures errors == ErrorCountOf(doc)
  {
    hide SmartUint;
    errors := SmartUint(doc.errorLogCount);
    if SmartUint(doc.nvme.mediaErrors).Some? {
      errors := SmartUint(doc.nvme.mediaErrors);
    }
    var sum, has := 0, false;
    for i := 0 to |doc.scsiUncorrected|
      invariant sum == ScsiErrors(doc.scsiUncorrected[..i]) && has == HasScsiErrors(doc.scsiUncorrected[..i])
    {
      assert doc.scsiUncorrected[..i + 1][..i] == doc.scsiUncorrected[..i];
      HasScsiStep(doc.scsiUncorrected, i);
      var value := SmartUint(doc.scsiUncorrected[i]);
      if value.Some? {
        has := true;
        if TWO_64 - 1 - sum >= value.value {
          sum := sum + value.value;
        }
      }
    }
    assert doc.scsiUncorrected[..|doc.scsiUncorrected|] == doc.scsiUncorrected;
    if has {
      errors := Some(sum);
    }
  }

  method AssessRisk(doc: SmartDoc, m: StorageHealth) returns (reasons: seq<string>, level: string)
    ensures reasons == SortBy(Itself, Reasons(Risks(doc, m))) && level == LevelOf(reasons, m.smartStatus)
  {
    hide Risks, Reasons, SortBy, CriticalReason;
    var critical, warning;
    reasons, critical, warning := AddReasons(Risks(doc, m));
    FlagsAreReasons(doc, m);
    MemberOfMultiset(reasons, SortBy(Itself, reasons));
    reasons := SortReasons(reasons);
    level := if critical then "critical" else if warning then "warning" else if m.smartStatus == "passed" then "healthy" else "unknown";
  }

  method SortReasons(reasons: seq<string>) returns (sorted: seq<string>)
    ensures sorted == SortBy(Itself, reasons)
  {
    sorted := SortBy(Itself, reasons);
  }

  lemma HasScsiStep(counters: seq<string>, i: nat)
    requires i < |counters|
    ensures HasScsiErrors(counters[..i + 1]) <==> HasScsiErrors(counters[..i]) || SmartUint(counters[i]).Some?
  {
    hide SmartUint;
    if HasScsiErrors(counters[..i]) {
      var j :| 0 <= j < i && SmartUint(counters[..i][j]).Some?;
      assert counters[..i + 1][j] == counters[..i][j];
    }
    if SmartUint(counters[i]).Some? {
      assert counters[..i + 1][i] == counters[i];
    }
    if HasScsiErrors(counters[..i + 1]) {
      var j :| 0 <= j < i + 1 && SmartUint(counters[..i + 1][j]).Some?;
      assert j < i ==> counters[..i][j] == counters[..i + 1][j];
    }
  }

  method ScanAttributes(table: seq<Attribute>)
    returns (normalized: Option<nat>, raw: Option<nat>, reallocated: Option<nat>, pending: Option<nat>, uncorrectable: Option<nat>)
    ensures normalized == ValueOf(LastAttribute(table, 1)) && raw == RawOf(LastAttribute(table, 1))
    ensures reallocated == RawOf(LastAttribute(table, 5)) && pending == RawOf(LastAttribute(table, 197))
    ensures uncorrectable == RawOf(LastAttribute(table, 198))
  {
    hide SmartUint;
    normalized, raw, reallocated, pending, uncorrectable := None, None, None, None, None;
    for i := 0 to |table|
      invariant normalized == ValueOf(LastAttribute(table[..i], 1)) && raw == RawOf(LastAttribute(table[..i], 1))
      invariant reallocated == RawOf(LastAttribute(table[..i], 5)) && pending == RawOf(LastAttribute(table[..i], 197))
      invariant uncorrectable == RawOf(LastAttribute(table[..i], 198))
    {
      var a := table[i];
      assert table[..i + 1][..i] == table[..i];
      match a.id {
        case 1 => normalized, raw := SmartUint(a.value), SmartUint(a.raw);
        case 5 => reallocated := SmartUint(a.raw);
        case 197 => pending := SmartUint(a.raw);
        case 198 => uncorrectable := SmartUint(a.raw);
        case _ =>
      }
    }
    assert table[..|table|] == table;
  }

  method AddReasons(risks: seq<Risk>) returns (reasons: seq<string>, critical: bool, warning: bool)
    ensures reasons == Reasons(risks)
    ensures critical <==> exists i :: 0 <= i < |risks| && risks[i].present && risks[i].critical
    ensures warning <==> exists i :: 0 <= i < |risks| && risks[i].present && !risks[i].critical
  {
    reasons, critical, warning := [], false, false;
    for i := 0 to |risks|
      invariant reasons == Reasons(risks[..i])
      invariant critical <==> exists j :: 0 <= j < i && risks[j].present && risks[j].critical
      invariant warning <==> exists j :: 0 <= j < i && risks[j].present && !risks[j].critical
    {
      assert risks[..i + 1][..i] == risks[..i];
      if risks[i].present {
        reasons := reasons + [risks[i].reason];
        if risks[i].critical {
          critical := true;
        } else {
          warning := true;
        }
      }
    }
    assert risks[..|risks|] == risks;
  }

  // ---- what the health says ----

  lemma {:induction false} ReasonsAre(risks: seq<Risk>)
    ensures forall r :: r in Reasons(risks) <==> exists i :: 0 <= i < |risks| && risks[i].present && risks[i].reason == r
    ensures |Reasons(risks)| <= |risks|
  {
    if risks != [] {
      var n := |risks| - 1;
      ReasonsAre(risks[..n]);
      forall r ensures r in Reasons(risks) <==> exists i :: 0 <= i < |risks| && risks[i].present && risks[i].reason == r {
        if r in Reasons(risks[..n]) {
          var i :| 0 <= i < n && risks[..n][i].present && risks[..n][i].reason == r;
          assert risks[i] == risks[..n][i];
        }
        if i :| 0 <= i < |risks| && risks[i].present && risks[i].reason == r {
          assert i < n ==> risks[..n][i] == risks[i];
        }
      }
    }
  }

  lemma {:induction false} ReasonsDistinct(risks: seq<Risk>)
    requires forall i, j :: 0 <= i < j < |risks| ==> risks[i].reason != risks[j].reason
    ensures forall i, j :: 0 <= i < j < |Reasons(risks)| ==> Reasons(risks)[i] != Reasons(risks)[j]
  {
    if risks != [] {
      var n := |risks| - 1;
      ReasonsDistinct(risks[..n]);
      ReasonsAre(risks[..n]);
      var earlier := Reasons(risks[..n]);
      forall i | 0 <= i < |earlier| ensures earlier[i] != risks[n].reason {
        assert earlier[i] in earlier;
        var k :| 0 <= k < n && risks[..n][k].present && risks[..n][k].reason == earlier[i];
        assert risks[k].reason == earlier[i];
      }
    }
  }

  lemma RiskTable(doc: SmartDoc, m: StorageHealth)
    ensures var risks := Risks(doc, m);
      && |risks| == 12
      && (forall i :: 0 <= i < 12 ==> KnownReason(risks[i].reason) && (risks[i].critical <==> CriticalReason(risks[i].reason)))
      && (forall i, j :: 0 <= i < j < 12 ==> risks[i].reason != risks[j].reason)
  {
    hide NonZero, Bit;
    var risks := Risks(doc, m);
    RiskNames(doc, m);
    forall i, j | 0 <= i < j < 12 ensures risks[i].reason != risks[j].reason {
      assert ReasonNames()[i] != ReasonNames()[j] by { NamesDiffer(i, j); }
    }
  }

  function ReasonNames(): seq<string> {
    ["smart_failed", "prefail_attribute", "nvme_critical_warning", "pending_sectors", "uncorrectable_sectors", "reallocated_sectors",
     "device_errors", "age_attribute", "device_error_log", "self_test_errors", "wear_exhausted", "wear_high"]
  }

  lemma RiskNames(doc: SmartDoc, m: StorageHealth)
    ensures |Risks(doc, m)| == 12
    ensures forall i :: 0 <= i < 12 ==> Risks(doc, m)[i].reason == ReasonNames()[i]
    ensures forall i :: 0 <= i < 12 ==> KnownReason(ReasonNames()[i])
    ensures forall i :: 0 <= i < 12 ==> (Risks(doc, m)[i].critical <==> CriticalReason(ReasonNames()[i]))
  {
    hide NonZero, Bit;
  }

  lemma NamesDiffer(i: nat, j: nat)
    requires i < j < 12
    ensures ReasonNames()[i] != ReasonNames()[j]
  {}

  /** The two flags of the code say what the reasons say. */
  lemma FlagsAreReasons(doc: SmartDoc, m: StorageHealth)
    ensures var risks := Risks(doc, m);
      && ((exists i :: 0 <= i < |risks| && risks[i].present && risks[i].critical) <==> exists r :: r in Reasons(risks) && CriticalReason(r))
      && ((exists i :: 0 <= i < |risks| && risks[i].present) <==> Reasons(risks) != [])
  {
    var risks := Risks(doc, m);
    RiskTable(doc, m);
    ReasonsAre(risks);
    hide Risks, CriticalReason, KnownReason, Reasons;
    if r :| r in Reasons(risks) && CriticalReason(r) {
      var i :| 0 <= i < |risks| && risks[i].present && risks[i].reason == r;
      assert risks[i].critical;
    }
    if i :| 0 <= i < |risks| && risks[i].present && risks[i].critical {
      assert risks[i].reason in Reasons(risks);
    }
    if i :| 0 <= i < |risks| && risks[i].present {
      assert risks[i].reason in Reasons(risks);
    }
    if Reasons(risks) != [] {
      assert Reasons(risks)[0] in Reasons(risks);
    }
  }

  lemma FailedComesFirst(doc: SmartDoc, m: StorageHealth)
    ensures var risks := Risks(doc, m);
      risks != [] && risks[0].reason == "smart_failed" && (m.smartStatus == "failed" ==> risks[0].present)
  {
    hide NonZero, Bit;
  }

  lemma ReasonsPass(doc: SmartDoc, m: StorageHealth)
    ensures ValidReasons(SortBy(Itself, Reasons(Risks(doc, m))))
    ensures m.smartStatus == "failed" ==> "smart_failed" in SortBy(Itself, Reasons(Risks(doc, m)))
  {
    var risks := Risks(doc, m);
    var reasons := Reasons(risks);
    hide Risks, Reasons, SortBy, CriticalReason, KnownReason;
    RiskTable(doc, m);
    FailedComesFirst(doc, m);
    ReasonsAre(risks);
    ReasonsDistinct(risks);
    MemberOfMultiset(reasons, SortBy(Itself, reasons));
    SortedDistinct(reasons);
    forall i | 0 <= i < |SortBy(Itself, reasons)| ensures KnownReason(SortBy(Itself, reasons)[i]) {
      assert SortBy(Itself, reasons)[i] in reasons;
    }
  }

  lemma LevelFacts(reasons: seq<string>, status: string)
    requires status == "failed" ==> "smart_failed" in reasons
    requires KnownStatus(status)
    ensures var level := LevelOf(reasons, status);
      && KnownLevel(level)
      && (level == "critical" <==> exists r :: r in reasons && CriticalReason(r))
      && (level == "warning" <==> reasons != [] && forall r :: r in reasons ==> !CriticalReason(r))
      && (level == "healthy" <==> reasons == [] && status == "passed")
      && (level == "unknown" <==> reasons == [] && status == "unknown")
      && (status == "failed" ==> level == "critical")
  {
    assert CriticalReason("smart_failed");
    hide CriticalReason;
    assert "critical" != "warning" && "critical" != "healthy" && "critical" != "unknown";
    assert "warning" != "healthy" && "warning" != "unknown" && "healthy" != "unknown";
    if reasons != [] {
      assert reasons[0] in reasons;
    }
  }

  /** The reasons pass the validator, and the level is exactly what they and the status dictate. */
  lemma HealthIsConsistent(doc: SmartDoc)
    ensures var h := HealthOf(doc);
      && KnownStatus(h.smartStatus) && KnownLevel(h.riskLevel) && ValidReasons(h.riskReasons)
      && (h.riskLevel == "critical" <==> exists r :: r in h.riskReasons && CriticalReason(r))
      && (h.riskLevel == "warning" <==> h.riskReasons != [] && forall r :: r in h.riskReasons ==> !CriticalReason(r))
      && (h.riskLevel == "healthy" <==> h.riskReasons == [] && h.smartStatus == "passed")
      && (h.riskLevel == "unknown" <==> h.riskReasons == [] && h.smartStatus == "unknown")
      && (h.smartStatus == "failed" ==> h.riskLevel == "critical")
  {
    hide Risks, Reasons, SortBy, CriticalReason, LevelOf, KnownLevel, SmartUint, LastAttribute, ErrorCountOf, ValidReasons;
    var m := Measured(doc);
    ReasonsPass(doc, m);
    assert KnownStatus(m.smartStatus);
    LevelFacts(SortBy(Itself, Reasons(Risks(doc, m))), m.smartStatus);
  }

  lemma SortedDistinct(s: seq<string>)
    requires forall i, j :: 0 <= i < j < |s| ==> s[i] != s[j]
    ensures var r := SortBy(Itself, s); forall i, j :: 0 <= i < j < |r| ==> r[i] != r[j]
  {
    hide SortBy;
    var r := SortBy(Itself, s);
    DistinctCount(s);
    forall i, j | 0 <= i < j < |r| ensures r[i] != r[j] {
      DuplicateCounts(r, i, j);
    }
  }

  lemma DuplicateCounts<T>(r: seq<T>, i: nat, j: nat)
    requires i < j < |r|
    ensures r[i] == r[j] ==> multiset(r)[r[i]] >= 2
  {
    assert r == r[..i] + [r[i]] + r[i + 1..j] + [r[j]] + r[j + 1..];
  }

  lemma {:induction false} DistinctCount<T>(s: seq<T>)
    requires forall i, j :: 0 <= i < j < |s| ==> s[i] != s[j]
    ensures forall x :: multiset(s)[x] <= 1
  {
    if s != [] {
      var n := |s| - 1;
      assert s == s[..n] + [s[n]];
      DistinctCount(s[..n]);
      assert s[n] !in s[..n];
      assert multiset(s[..n])[s[n]] == 0;
    }
  }

  ghost predicate RawAboveZero(doc: SmartDoc, id: int) {
    NonZero(RawOf(LastAttribute(doc.attributes, id)))
  }

  /** Each reason stands for exactly its own finding in the document. */
  lemma ReasonsExplained(doc: SmartDoc)
    ensures var r := HealthOf(doc).riskReasons;
      && ("smart_failed" in r <==> doc.passed == Some(false) || Bit(doc.exitStatus, 8))
      && ("prefail_attribute" in r <==> Bit(doc.exitStatus, 16))
      && ("nvme_critical_warning" in r <==> NonZero(SmartUint(doc.nvme.criticalWarning)))
      && ("pending_sectors" in r <==> RawAboveZero(doc, 197))
      && ("uncorrectable_sectors" in r <==> RawAboveZero(doc, 198))
      && ("reallocated_sectors" in r <==> RawAboveZero(doc, 5))
      && ("device_errors" in r <==> NonZero(ErrorCountOf(doc)))
      && ("age_attribute" in r <==> Bit(doc.exitStatus, 32))
      && ("device_error_log" in r <==> Bit(doc.exitStatus, 64))
      && ("self_test_errors" in r <==> Bit(doc.exitStatus, 128))
      && ("wear_exhausted" in r <==> doc.nvme.percentageUsed.Some? && doc.nvme.percentageUsed.value >= 100.0)
      && ("wear_high" in r <==> doc.nvme.percentageUsed.Some? && 90.0 <= doc.nvme.percentageUsed.value < 100.0)
  {
    var m := Measured(doc);
    var risks := Risks(doc, m);
    hide NonZero, Bit, SmartUint, LastAttribute, ErrorCountOf, RawOf, ValueOf, Reasons, SortBy, LevelOf, KnownReason, CriticalReason;
    RiskTable(doc, m);
    MemberOfMultiset(Reasons(risks), SortBy(Itself, Reasons(risks)));
    ReasonsAre(risks);
    forall i | 0 <= i < 12 ensures risks[i].reason in Reasons(risks) <==> risks[i].present {
      if risks[i].reason in Reasons(risks) {
        var j :| 0 <= j < 12 && risks[j].present && risks[j].reason == risks[i].reason;
        assert i == j;
      }
    }
    RisksNamed(doc, m);
  }

  lemma RisksNamed(doc: SmartDoc, m: StorageHealth)
    ensures var risks := Risks(doc, m);
      && |risks| == 12
      && risks[0].reason == "smart_failed" && risks[1].reason == "prefail_attribute" && risks[2].reason == "nvme_critical_warning"
      && risks[3].reason == "pending_sectors" && risks[4].reason == "uncorrectable_sectors" && risks[5].reason == "reallocated_sectors"
      && risks[6].reason == "device_errors" && risks[7].reason == "age_attribute" && risks[8].reason == "device_error_log"
      && risks[9].reason == "self_test_errors" && risks[10].reason == "wear_exhausted" && risks[11].reason == "wear_high"
  {
    hide NonZero, Bit, SmartUint;
  }

  /** The counters fit bigint exactly when the SCSI sum, if it is used at all, does. */
  lemma CountersFitIff(doc: SmartDoc)
    ensures ValidCounters(HealthOf(doc)) <==> (HasScsiErrors(doc.scsiUncorrected) ==> ScsiErrors(doc.scsiUncorrected) <= MAX_BIGINT)
  {
    hide SmartUint, Risks, Reasons, LastAttribute, HasScsiErrors, LevelOf, SortBy;
  }

  /** The readings the agent passes on unchecked, and the sum it makes, are ones the validator takes. */
  predicate InRange(doc: SmartDoc) {
    && (HasScsiErrors(doc.scsiUncorrected) ==> ScsiErrors(doc.scsiUncorrected) <= MAX_BIGINT)
    && OptionalTemperature(if doc.nvme.temperature.Some? then doc.nvme.temperature else doc.temperature)
    && (doc.nvme.percentageUsed.Some? ==> 0.0 <= doc.nvme.percentageUsed.value <= 255.0)
  }

  /** Only those can fail the validator. */
  lemma HealthPassesIff(doc: SmartDoc)
    ensures ValidStorageHealth(HealthOf(doc)) <==> InRange(doc)
  {
    HealthIsConsistent(doc);
    CountersFitIff(doc);
    hide SmartUint, Risks, Reasons, LastAttribute, HasScsiErrors, LevelOf, SortBy, ValidCounters, ValidReasons, KnownStatus, KnownLevel,
      CriticalReason;
  }

  /** Read and write counters that fit bigint on their own; there is none for verify. */
  function LargeCounters(): seq<string> { [Decimal(MAX_BIGINT), Decimal(1), ""] }

  lemma SumOfTwo(c: seq<string>, read: nat, write: nat)
    requires |c| == 3 && SmartUint(c[0]) == Some(read) && SmartUint(c[1]) == Some(write) && SmartUint(c[2]) == None
    requires read + write < TWO_64
    ensures HasScsiErrors(c) && ScsiErrors(c) == read + write
  {
    hide SmartUint;
    assert c[..1] == [c[0]] && c[..1][..0] == [] && c[..2][..1] == c[..1];
    assert ScsiErrors(c[..1]) == read;
    assert ScsiErrors(c[..2]) == read + write;
  }

  lemma SumOverflows(doc: SmartDoc)
    requires doc.scsiUncorrected == LargeCounters()
    ensures ErrorCountOf(doc) == Some(MAX_BIGINT + 1)
    ensures !ValidStorageHealth(HealthOf(doc))
  {
    var c := doc.scsiUncorrected;
    hide Risks, Reasons, LastAttribute, LevelOf, SortBy, HealthOf, Decimal, HasScsiErrors, ScsiErrors;
    DecimalReads(MAX_BIGINT);
    DecimalReads(1);
    assert SmartUint("") == None by { TrimmedIsFixed(""); }
    hide SmartUint;
    SumOfTwo(c, MAX_BIGINT, 1);
    HealthPassesIff(doc);
  }

  lemma DecimalReads(n: nat)
    requires n <= MAX_BIGINT
    ensures SmartUint(Decimal(n)) == Some(n)
  {
    DecimalIsValue(n);
    DigitsTrimmed(Decimal(n));
    TrimmedIsFixed(Decimal(n));
    hide Decimal, TrimSpace, Value;
  }

  lemma DigitsTrimmed(s: string)
    requires AllDigits(s)
    ensures Trimmed(s)
  {}

  // ---- merging ----

  datatype Merged = Merged(devices: seq<Device>, health: seq<Item<StorageHealth>>)

  function MergeOne(m: Merged, s: Sample): Merged {
    var found := BlockDeviceFromSmart(s);
    var i := MatchIndex(m.devices, found.attrs);
    var devices :=
      if i < |m.devices| then m.devices[i := m.devices[i].(attrs := MergeBlockDevice(m.devices[i].attrs, found.attrs))]
      else m.devices + [found];
    var key := devices[i].key;
    Merged(devices, if exists h :: h in m.health && h.key == key then m.health else m.health + [Item(key, HealthOf(s.doc))])
  }

  function MergeAll(inventory: seq<Device>, samples: seq<Sample>): Merged {
    if samples == [] then Merged(inventory, [])
    else
      var n := |samples| - 1;
      var before := MergeAll(inventory, samples[..n]);
      if samples[n].ok then MergeOne(before, samples[n]) else before
  }

  /** Any of the orders `sort.Slice` may give devices whose keys are equal. */
  method SortDevices(devices: seq<Device>) returns (sorted: seq<Device>)
    ensures multiset(sorted) == multiset(devices) && SortedBy(KeyOf, sorted)
  {
    SortBySorted(KeyOf, devices);
    sorted := SortBy(KeyOf, devices);
  }

  method MergeSmartSamples(inventory: seq<Device>, samples: seq<Sample>)
    returns (devices: seq<Device>, health: seq<Item<StorageHealth>>)
    ensures multiset(devices) == multiset(MergeAll(inventory, samples).devices) && SortedBy(KeyOf, devices)
    ensures health == SortBy(KeyOf, MergeAll(inventory, samples).health)
  {
    hide BlockDeviceFromSmart, MergeBlockDevice, HealthOf, MatchIndex;
    devices, health := inventory, [];
    var seen: set<string> := {};
    for n := 0 to |samples|
      invariant Merged(devices, health) == MergeAll(inventory, samples[..n])
      invariant seen == KeysOf(health)
    {
      assert samples[..n + 1][..n] == samples[..n];
      if !samples[n].ok {
        continue;
      }
      ghost var before := Merged(devices, health);
      var device := BlockDeviceFromSmart(samples[n]);
      var index := MatchBlockDevice(devices, device.attrs);
      if index >= 0 {
        devices := devices[index := devices[index].(attrs := MergeBlockDevice(devices[index].attrs, device.attrs))];
        device := devices[index];
      } else {
        devices := devices + [device];
      }
      assert device.key in seen <==> exists h :: h in health && h.key == device.key by { SeenIffPresent(health, device.key); }
      assert MergeAll(inventory, samples[..n + 1]) == MergeOne(before, samples[n]);
      if device.key in seen {
        continue;
      }
      seen := seen + {device.key};
      var metric := StorageHealthFromSmart(samples[n].doc);
      KeysOfOneMore(health, Item(device.key, metric));
      health := health + [Item(device.key, metric)];
    }
    assert samples[..|samples|] == samples;
    devices := SortDevices(devices);
    health := SortBy(KeyOf, health);
  }

  lemma SeenIffPresent(health: seq<Item<StorageHealth>>, key: string)
    ensures key in KeysOf(health) <==> exists h :: h in health && h.key == key
  {
    if key in KeysOf(health) {
      var i :| 0 <= i < |health| && health[i].key == key;
      assert health[i] in health;
    }
  }

  lemma KeysOfOneMore<T>(items: seq<Item<T>>, x: Item<T>)
    ensures KeysOf(items + [x]) == KeysOf(items) + {x.key}
  {
    assert forall i :: 0 <= i < |items| ==> (items + [x])[i] == items[i];
    assert (items + [x])[|items|] == x;
    forall k | k in KeysOf(items) ensures k in KeysOf(items + [x]) {
      var i :| 0 <= i < |items| && items[i].key == k;
      assert (items + [x])[i].key == k;
    }
  }
}
