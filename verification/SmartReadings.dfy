/** Where each figure of a SMART document ends up (internal/agent/health.go:210-346). */
module SmartReadings {
  import opened Text
  import opened Numbers
  import opened Reports
  import opened Checksums
  import opened Smart

  /** The first text that is not blank, trimmed; if there is none, nothing. */
  ghost predicate IsFirst(r: string, values: seq<string>) {
    || (r == "" && forall i :: 0 <= i < |values| ==> Blank(values[i]))
    || (exists i :: 0 <= i < |values| && !Blank(values[i]) && r == TrimSpace(values[i]) && forall j :: 0 <= j < i ==> Blank(values[j]))
  }

  lemma {:induction false} FirstNonEmptyIs(values: seq<string>)
    ensures IsFirst(FirstNonEmpty(values), values)
  {
    hide Blank;
    if values != [] && Blank(values[0]) {
      FirstNonEmptyIs(values[1..]);
      var r := FirstNonEmpty(values[1..]);
      if i :| 0 <= i < |values[1..]| && !Blank(values[1..][i]) && r == TrimSpace(values[1..][i]) && forall j :: 0 <= j < i ==> Blank(values[1..][j]) {
        assert values[i + 1] == values[1..][i];
        forall j | 0 <= j < i + 1 ensures Blank(values[j]) {
          assert j > 0 ==> values[j] == values[1..][j - 1];
        }
      } else {
        assert forall i :: 0 < i < |values| ==> values[i] == values[1..][i - 1];
      }
    }
  }

  /** The device smartctl describes: itself, or as it was scanned when the document names none. */
  function Described(s: Sample): SmartDevice {
    if s.doc.device.name == "" then s.scanned else s.doc.device
  }

  /** Key, name and columns of a device made from a document. */
  lemma FoundSays(s: Sample, bytes: nat)
    requires bytes <= MAX_BIGINT
    ensures var doc, found := s.doc, BlockDeviceFromSmart(s);
      && IsFirst(found.attrs.smartDeviceType, [Described(s).kind, s.scanned.kind])
      && IsFirst(found.key, [doc.serialNumber, doc.logicalUnitId, Described(s).name + "|" + found.attrs.smartDeviceType])
      && IsFirst(found.attrs.deviceName, [Described(s).name, s.scanned.name])
      && IsFirst(found.attrs.modelName, [doc.modelName, doc.scsiModelName, TrimSpace(doc.scsiVendor + " " + doc.scsiProduct)])
      && IsFirst(found.attrs.protocol, [Described(s).protocol, s.scanned.protocol])
      && found.attrs.deviceKind == "disk" && found.attrs.vendor == doc.scsiVendor
      && found.attrs.serialNumber == doc.serialNumber && found.attrs.wwn == doc.logicalUnitId
      && (doc.capacity == Decimal(bytes) ==> found.attrs.sizeBytes == bytes)
      && (doc.rotationRate.None? ==> found.attrs.rotational.None?)
      && (doc.rotationRate.Some? ==> found.attrs.rotational == Some(doc.rotationRate.value != 0))
  {
    hide FirstNonEmpty, IsRaidType, SmartUint, TrimSpace, IsFirst, Decimal;
    var doc, found := s.doc, BlockDeviceFromSmart(s);
    DecimalReads(bytes);
    FirstNonEmptyIs([Described(s).kind, s.scanned.kind]);
    FirstNonEmptyIs([doc.serialNumber, doc.logicalUnitId, Described(s).name + "|" + found.attrs.smartDeviceType]);
    FirstNonEmptyIs([Described(s).name, s.scanned.name]);
    FirstNonEmptyIs([doc.modelName, doc.scsiModelName, TrimSpace(doc.scsiVendor + " " + doc.scsiProduct)]);
    FirstNonEmptyIs([Described(s).protocol, s.scanned.protocol]);
  }

  /** A text SMART may know better, or not at all. */
  ghost predicate Better(after: string, smart: string, before: string) {
    (smart != "" ==> after == smart) && (smart == "" ==> after == before)
  }

  /** A listed device keeps its name and kind, and takes over every column SMART knows. */
  lemma MergedSays(target: BlockDevice, source: BlockDevice)
    ensures var r := MergeBlockDevice(target, source);
      && r.deviceName == target.deviceName && r.deviceKind == target.deviceKind
      && Better(r.vendor, source.vendor, target.vendor) && Better(r.modelName, source.modelName, target.modelName)
      && Better(r.serialNumber, source.serialNumber, target.serialNumber) && Better(r.wwn, source.wwn, target.wwn)
      && r.sizeBytes == (if source.sizeBytes == 0 then target.sizeBytes else source.sizeBytes)
      && r.rotational == (if source.rotational.None? then target.rotational else source.rotational)
      && r.protocol == source.protocol && r.smartDeviceType == source.smartDeviceType && r.raidPassthrough == source.raidPassthrough
  {}

  /** Row `i` is the last with its id. */
  ghost predicate IsLast(table: seq<Attribute>, id: int, i: nat) {
    i < |table| && table[i].id == id && forall j :: i < j < |table| ==> table[j].id != id
  }

  ghost predicate Absent(table: seq<Attribute>, id: int) {
    forall i :: 0 <= i < |table| ==> table[i].id != id
  }

  /** What the table says under an id: its last row, or nothing. */
  ghost predicate Reported(figure: Option<nat>, table: seq<Attribute>, id: int, text: Attribute -> string) {
    && (Absent(table, id) ==> figure == None)
    && (forall i: nat :: IsLast(table, id, i) ==> figure == SmartUint(text(table[i])))
  }

  lemma {:induction false} LastAttributeIs(table: seq<Attribute>, id: int)
    ensures Absent(table, id) ==> LastAttribute(table, id) == None
    ensures forall i: nat :: IsLast(table, id, i) ==> LastAttribute(table, id) == Some(table[i])
  {
    if table != [] && table[|table| - 1].id != id {
      var n := |table| - 1;
      LastAttributeIs(table[..n], id);
      if Absent(table, id) {
        assert Absent(table[..n], id);
      }
      forall i: nat | IsLast(table, id, i) ensures LastAttribute(table, id) == Some(table[i]) {
        assert i < n && IsLast(table[..n], id, i);
      }
    }
  }

  lemma AttributesRead(doc: SmartDoc)
    ensures var m := Measured(doc);
      && Reported(m.readErrorRateNormalized, doc.attributes, 1, (a: Attribute) => a.value)
      && Reported(m.readErrorRateRaw, doc.attributes, 1, (a: Attribute) => a.raw)
      && Reported(m.reallocatedSectors, doc.attributes, 5, (a: Attribute) => a.raw)
      && Reported(m.pendingSectors, doc.attributes, 197, (a: Attribute) => a.raw)
      && Reported(m.uncorrectableSectors, doc.attributes, 198, (a: Attribute) => a.raw)
  {
    hide SmartUint, LastAttribute, ErrorCountOf, StatusOf, IsLast, Absent;
    LastAttributeIs(doc.attributes, 1);
    LastAttributeIs(doc.attributes, 5);
    LastAttributeIs(doc.attributes, 197);
    LastAttributeIs(doc.attributes, 198);
  }

  /** The figures of the metric: NVMe readings before the general ones, SCSI counters before both, attributes by id. */
  lemma HealthReads(doc: SmartDoc)
    ensures var m := HealthOf(doc);
      && m.smartAvailable == doc.available && m.smartEnabled == doc.enabled
      && (doc.passed == None ==> m.smartStatus == "unknown")
      && (doc.passed == Some(true) ==> m.smartStatus == "passed")
      && (doc.passed == Some(false) ==> m.smartStatus == "failed")
      && m.temperatureCelsius == (if doc.nvme.temperature.Some? then doc.nvme.temperature else doc.temperature)
      && m.percentageUsed == doc.nvme.percentageUsed
      && m.powerOnHours == (if SmartUint(doc.nvme.powerOnHours).Some? then SmartUint(doc.nvme.powerOnHours) else SmartUint(doc.powerOnHours))
      && (HasScsiErrors(doc.scsiUncorrected) ==> m.errorCount == Some(ScsiErrors(doc.scsiUncorrected)))
      && (!HasScsiErrors(doc.scsiUncorrected) ==>
            m.errorCount == if SmartUint(doc.nvme.mediaErrors).Some? then SmartUint(doc.nvme.mediaErrors) else SmartUint(doc.errorLogCount))
      && Reported(m.readErrorRateNormalized, doc.attributes, 1, (a: Attribute) => a.value)
      && Reported(m.readErrorRateRaw, doc.attributes, 1, (a: Attribute) => a.raw)
      && Reported(m.reallocatedSectors, doc.attributes, 5, (a: Attribute) => a.raw)
      && Reported(m.pendingSectors, doc.attributes, 197, (a: Attribute) => a.raw)
      && Reported(m.uncorrectableSectors, doc.attributes, 198, (a: Attribute) => a.raw)
  {
    hide SmartUint, Risks, Reasons, LastAttribute, HasScsiErrors, LevelOf, Reported, ScsiErrors;
    AttributesRead(doc);
  }

  /** Below 2^64 nothing is left out of the SCSI sum. */
  lemma {:induction false} ScsiSumIs(counters: seq<string>, values: seq<nat>)
    requires |counters| == |values| && forall i :: 0 <= i < |counters| ==> SmartUint(counters[i]) == Some(values[i])
    requires SumOf(values) < TWO_64
    ensures ScsiErrors(counters) == SumOf(values)
  {
    hide SmartUint;
    if counters != [] {
      var n := |counters| - 1;
      assert forall i :: 0 <= i < n ==> counters[..n][i] == counters[i];
      ScsiSumIs(counters[..n], values[..n]);
    }
  }

  function SumOf(values: seq<nat>): nat {
    if values == [] then 0 else SumOf(values[..|values| - 1]) + values[|values| - 1]
  }

  /** The flags of an exit status are its binary digits: the lowest tells odd from even, the others are those of its half. */
  lemma BitsAreDigits(status: int, weight: nat)
    requires weight > 0
    ensures Bit(status, 1) <==> status % 2 == 1
    ensures Bit(status, 2 * weight) <==> Bit(status / 2, weight)
  {
    var q, r := status / (2 * weight), status % (2 * weight);
    assert status == 2 * (weight * q) + r;
    QuotientIs(status / 2, weight, q, r / 2);
  }

  lemma QuotientIs(m: int, k: nat, q: int, r: int)
    requires k > 0 && 0 <= r < k && m == k * q + r
    ensures m / k == q
  {
    var p, s := m / k, m % k;
    assert m == k * p + s;
    assert k * (p - q) == r - s;
    if p > q {
      assert k * (p - q) >= k by { AtLeast(k, p - q); }
    } else if p < q {
      assert k * (q - p) >= k by { AtLeast(k, q - p); }
    }
  }

  lemma AtLeast(k: nat, d: int)
    requires d > 0
    ensures k * d >= k
  {
    assert k * d == k * (d - 1) + k;
  }

  /** The text starts with the name, or has it after a plus sign. */
  ghost predicate NamedIn(lower: string, name: string) {
    || (exists rest :: lower == name + rest)
    || (exists before, rest :: lower == before + ("+" + name + rest))
  }

  /** A type, trimmed and in lower case, is a controller's exactly when one of the seven names is in it that way. */
  lemma RaidTypeIff(kind: string)
    ensures IsRaidType(kind) <==>
              exists name :: name in {"megaraid,", "aacraid,", "areca,", "3ware,", "hpt,", "cciss,", "sssraid,"}
                             && NamedIn(ToLower(TrimSpace(kind)), name)
  {
    hide ToLower, TrimSpace, NamedIn, Contains;
    var lower := ToLower(TrimSpace(kind));
    if IsRaidType(kind) {
      var name :| name in {"megaraid,", "aacraid,", "areca,", "3ware,", "hpt,", "cciss,", "sssraid,"}
                  && (name <= lower || Contains(lower, "+" + name));
      ContainsIff(lower, name);
      assert NamedIn(lower, name);
    }
    if name :| name in {"megaraid,", "aacraid,", "areca,", "3ware,", "hpt,", "cciss,", "sssraid,"} && NamedIn(lower, name) {
      ContainsIff(lower, name);
      assert name <= lower || Contains(lower, "+" + name);
    }
  }

  lemma ContainsIff(lower: string, name: string)
    ensures (name <= lower || Contains(lower, "+" + name)) <==> NamedIn(lower, name)
  {
    if name <= lower {
      assert lower == name + lower[|name|..];
    }
    var part := "+" + name;
    if i :| 0 <= i <= |lower| && part <= lower[i..] {
      assert lower == lower[..i] + ("+" + name + lower[i + |part|..]);
    }
    if before, rest :| lower == before + ("+" + name + rest) {
      assert lower[|before|..] == part + rest;
      assert part <= lower[|before|..];
    }
  }

  /** A number is read exactly from digits that stay below 2^63, blanks around them aside. */
  lemma SmartUintIff(text: string, n: nat)
    ensures SmartUint(text) == Some(n) <==>
              var t := TrimSpace(text);
              t != "" && (forall i :: 0 <= i < |t| ==> '0' <= t[i] <= '9') && Value(t) == n && n < 0x8000_0000_0000_0000
  {
    hide TrimSpace, Value;
  }
}
