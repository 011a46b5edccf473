/** What merging SMART samples does to the inventory, against the validator (internal/agent/health.go:183-269). */
module SmartMerge {
  import opened Text
  import opened Sorting
  import opened Reports
  import opened Inventories
  import opened Smart

  // ---- devices and the health that names them ----

  ghost predicate GoodKey(key: string) { Trimmed(key) && key != "" }

  /** Key, name and kind of every inventory device survive, at its place; all keys are usable as keys. */
  ghost predicate Survives(inventory: seq<Device>, devices: seq<Device>) {
    && |inventory| <= |devices|
    && (forall i :: 0 <= i < |inventory| ==>
          && devices[i].key == inventory[i].key && devices[i].attrs.deviceName == inventory[i].attrs.deviceName
          && devices[i].attrs.deviceKind == inventory[i].attrs.deviceKind)
    && (forall i :: 0 <= i < |devices| ==> GoodKey(devices[i].key))
  }

  lemma FoundKeyIsGood(s: Sample)
    ensures GoodKey(BlockDeviceFromSmart(s).key)
  {
    var doc := s.doc;
    var info := if doc.device.name == "" then s.scanned else doc.device;
    var kind := FirstNonEmpty([info.kind, s.scanned.kind]);
    var values := [doc.serialNumber, doc.logicalUnitId, info.name + "|" + kind];
    BarIsNotBlank(info.name, kind);
    assert !Blank(values[2]);
  }

  lemma BarIsNotBlank(a: string, b: string)
    ensures !Blank(a + "|" + b)
  {
    KeepsNonSpace(a + "|" + b, |a|);
  }

  lemma {:induction false} LeftKeeps(s: string, i: nat)
    requires i < |s| && !IsSpace(s[i])
    ensures exists j :: 0 <= j < |TrimLeft(s)| && !IsSpace(TrimLeft(s)[j])
  {
    if IsSpace(s[0]) {
      assert s[1..][i - 1] == s[i];
      LeftKeeps(s[1..], i - 1);
      assert TrimLeft(s) == TrimLeft(s[1..]);
    } else {
      assert TrimLeft(s) == s && !IsSpace(TrimLeft(s)[i]);
    }
  }

  lemma {:induction false} RightKeeps(s: string, i: nat)
    requires i < |s| && !IsSpace(s[i])
    ensures TrimRight(s) != ""
  {
    if IsSpace(s[|s| - 1]) {
      assert s[..|s| - 1][i] == s[i];
      RightKeeps(s[..|s| - 1], i);
    }
  }

  lemma KeepsNonSpace(s: string, i: nat)
    requires i < |s| && !IsSpace(s[i])
    ensures TrimSpace(s) != ""
  {
    LeftKeeps(s, i);
    var j :| 0 <= j < |TrimLeft(s)| && !IsSpace(TrimLeft(s)[j]);
    RightKeeps(TrimLeft(s), j);
  }

  lemma {:induction false} MergeSurvives(inventory: seq<Device>, samples: seq<Sample>)
    requires forall i :: 0 <= i < |inventory| ==> GoodKey(inventory[i].key)
    ensures Survives(inventory, MergeAll(inventory, samples).devices)
  {
    hide BlockDeviceFromSmart, HealthOf, MatchIndex, GoodKey, SameDevice;
    if samples != [] {
      var n := |samples| - 1;
      MergeSurvives(inventory, samples[..n]);
      FoundKeyIsGood(samples[n]);
    }
  }

  lemma {:induction false} HealthNamesDevices(inventory: seq<Device>, samples: seq<Sample>)
    ensures var m := MergeAll(inventory, samples);
      && References(m.health, m.devices) && DistinctKeys(m.health)
      && forall h :: h in m.health ==> exists i :: 0 <= i < |samples| && samples[i].ok && h.attrs == HealthOf(samples[i].doc)
  {
    hide BlockDeviceFromSmart, MergeBlockDevice, HealthOf, MatchIndex, SameDevice, KeysOf;
    if samples != [] {
      var n := |samples| - 1;
      var before, m := MergeAll(inventory, samples[..n]), MergeAll(inventory, samples);
      HealthNamesDevices(inventory, samples[..n]);
      assert forall i :: 0 <= i < n ==> samples[..n][i] == samples[i];
      if samples[n].ok {
        MergeKeepsKeys(before, samples[n]);
        var key := m.devices[MatchIndex(before.devices, BlockDeviceFromSmart(samples[n]).attrs)].key;
        forall h | h in m.health ensures exists i :: 0 <= i < |samples| && samples[i].ok && h.attrs == HealthOf(samples[i].doc) {
          if h in before.health {
            var i :| 0 <= i < n && samples[..n][i].ok && h.attrs == HealthOf(samples[..n][i].doc);
            assert samples[i].ok && h.attrs == HealthOf(samples[i].doc);
          } else {
            assert h.attrs == HealthOf(samples[n].doc);
          }
        }
        forall i, j | 0 <= i < j < |m.health| ensures m.health[i].key != m.health[j].key {
          if j == |before.health| {
            assert m.health[i] in before.health;
          }
        }
      }
    }
  }

  lemma MergeKeepsKeys(m: Merged, s: Sample)
    ensures KeysOf(m.devices) <= KeysOf(MergeOne(m, s).devices)
    ensures MergeOne(m, s).devices[MatchIndex(m.devices, BlockDeviceFromSmart(s).attrs)].key in KeysOf(MergeOne(m, s).devices)
  {
    hide BlockDeviceFromSmart, MergeBlockDevice, HealthOf, MatchIndex, SameDevice;
    var d := MergeOne(m, s).devices;
    forall k | k in KeysOf(m.devices) ensures k in KeysOf(d) {
      var i :| 0 <= i < |m.devices| && m.devices[i].key == k;
      assert d[i].key == k;
    }
  }

  predicate AllValid(devices: seq<Device>) {
    forall i :: 0 <= i < |devices| ==> ValidBlockDevice(devices[i].attrs)
  }

  /** Merged and added devices keep passing the validator's test of one device. */
  lemma {:induction false} DevicesStayValid(inventory: seq<Device>, samples: seq<Sample>)
    requires AllValid(inventory) && forall i :: 0 <= i < |samples| ==> !Blank(samples[i].scanned.name)
    ensures AllValid(MergeAll(inventory, samples).devices)
  {
    hide HealthOf, MatchIndex, SameDevice, SmartUint, IsRaidType, BlockDeviceFromSmart, Blank;
    if samples != [] {
      var n := |samples| - 1;
      DevicesStayValid(inventory, samples[..n]);
      FoundIsValid(samples[n]);
    }
  }

  lemma FoundIsValid(s: Sample)
    requires !Blank(s.scanned.name)
    ensures ValidBlockDevice(BlockDeviceFromSmart(s).attrs)
  {
    hide SmartUint, IsRaidType, TrimSpace;
    var info := if s.doc.device.name == "" then s.scanned else s.doc.device;
    var names := [info.name, s.scanned.name];
    assert !Blank(names[1]);
    TrimmedIsFixed(FirstNonEmpty(names));
  }

  lemma GoodDistinctKeysUsable<T>(items: seq<Item<T>>)
    requires DistinctKeys(items) && forall i :: 0 <= i < |items| ==> GoodKey(items[i].key)
    ensures UsableKeys(items)
  {
    forall i | 0 <= i < |items| ensures TrimSpace(items[i].key) == items[i].key {
      TrimmedIsFixed(items[i].key);
    }
  }

  /** Every device of the inventory is still there under its key, name and kind. */
  ghost predicate Carried(inventory: seq<Device>, devices: seq<Device>) {
    forall d :: d in inventory ==>
      exists e :: e in devices && e.key == d.key && e.attrs.deviceName == d.attrs.deviceName && e.attrs.deviceKind == d.attrs.deviceKind
  }

  /** The row is a metric of some sample, and passes the validator exactly when that sample's readings are in range. */
  ghost predicate FromSample(samples: seq<Sample>, m: StorageHealth) {
    exists i :: 0 <= i < |samples| && samples[i].ok && m == HealthOf(samples[i].doc)
                && (ValidStorageHealth(m) <==> InRange(samples[i].doc))
  }

  /** What `MergeSmartSamples` returns: the devices in any of the orders the sort may give equal keys. */
  ghost predicate Returned(inventory: seq<Device>, samples: seq<Sample>, devices: seq<Device>, health: seq<Item<StorageHealth>>) {
    && multiset(devices) == multiset(MergeAll(inventory, samples).devices) && SortedBy(KeyOf, devices)
    && health == SortBy(KeyOf, MergeAll(inventory, samples).health)
  }

  lemma PermutedKeys<T>(a: seq<Item<T>>, b: seq<Item<T>>)
    requires multiset(a) == multiset(b)
    ensures KeysOf(a) == KeysOf(b)
    ensures DistinctKeys(a) ==> DistinctKeys(b)
  {
    MemberOfMultiset(a, b);
    MemberKeys(a, b);
    MemberKeys(b, a);
    if DistinctKeys(a) {
      DistinctCount(a);
      forall i, j | 0 <= i < j < |b| ensures b[i].key != b[j].key {
        DuplicateCounts(b, i, j);
        assert b[i] in a && b[j] in a;
      }
    }
  }

  lemma MemberKeys<T>(a: seq<Item<T>>, b: seq<Item<T>>)
    requires forall x :: x in a ==> x in b
    ensures KeysOf(a) <= KeysOf(b)
  {
    forall k | k in KeysOf(a) ensures k in KeysOf(b) {
      var i :| 0 <= i < |a| && a[i].key == k;
      assert a[i] in b;
    }
  }

  lemma SurvivorsCarried(inventory: seq<Device>, merged: seq<Device>, devices: seq<Device>)
    requires Survives(inventory, merged) && multiset(devices) == multiset(merged)
    ensures Carried(inventory, devices)
  {
    MemberOfMultiset(devices, merged);
    forall d | d in inventory
      ensures exists e :: e in devices && e.key == d.key && e.attrs.deviceName == d.attrs.deviceName && e.attrs.deviceKind == d.attrs.deviceKind
    {
      var i :| 0 <= i < |inventory| && inventory[i] == d;
      assert merged[i] in devices;
    }
  }

  /**
   * For every inventory with trimmed, non-empty keys and every sample list: the returned health keys are usable,
   * distinct and all name returned devices, the inventory's keys, names and kinds survive, and every health row passes
   * the validator exactly when the readings and the SCSI sum it was made from are in range.
   */
  lemma MergeMeetsValidator(inventory: seq<Device>, samples: seq<Sample>, devices: seq<Device>, health: seq<Item<StorageHealth>>)
    requires forall i :: 0 <= i < |inventory| ==> GoodKey(inventory[i].key)
    requires Returned(inventory, samples, devices, health)
    ensures Carried(inventory, devices) && (forall d :: d in devices ==> GoodKey(d.key))
    ensures References(health, devices) && UsableKeys(health)
    ensures forall h :: h in health ==> FromSample(samples, h.attrs)
  {
    hide HealthOf, FromSample, SortBy, SortedBy, GoodKey, MergeAll, Survives, Carried, References, DistinctKeys, UsableKeys;
    var m := MergeAll(inventory, samples);
    MergeSurvives(inventory, samples);
    HealthNamesDevices(inventory, samples);
    SurvivorsCarried(inventory, m.devices, devices);
    assert forall i :: 0 <= i < |m.devices| ==> GoodKey(m.devices[i].key) by { SurvivorsGood(inventory, m.devices); }
    SortedNames(m.devices, m.health, devices, health);
    MemberOfMultiset(health, m.health);
    forall h | h in health ensures FromSample(samples, h.attrs) {
      SampleDecides(samples, h.attrs);
    }
  }

  lemma SurvivorsGood(inventory: seq<Device>, devices: seq<Device>)
    requires Survives(inventory, devices)
    ensures forall i :: 0 <= i < |devices| ==> GoodKey(devices[i].key)
  {
    hide GoodKey;
  }

  /** Sorting changes nothing in which health names which device. */
  lemma SortedNames(m: seq<Device>, h: seq<Item<StorageHealth>>, devices: seq<Device>, health: seq<Item<StorageHealth>>)
    requires multiset(devices) == multiset(m) && multiset(health) == multiset(h)
    requires References(h, m) && DistinctKeys(h) && forall i :: 0 <= i < |m| ==> GoodKey(m[i].key)
    ensures References(health, devices) && UsableKeys(health) && forall d :: d in devices ==> GoodKey(d.key)
  {
    hide GoodKey, UsableKeys;
    MemberOfMultiset(devices, m);
    MemberOfMultiset(health, h);
    PermutedKeys(m, devices);
    PermutedKeys(h, health);
    forall i | 0 <= i < |health| ensures health[i].key in KeysOf(devices) && GoodKey(health[i].key) {
      assert health[i] in h;
      assert health[i].key in KeysOf(m);
    }
    GoodDistinctKeysUsable(health);
  }

  lemma SampleDecides(samples: seq<Sample>, m: StorageHealth)
    requires exists i :: 0 <= i < |samples| && samples[i].ok && m == HealthOf(samples[i].doc)
    ensures FromSample(samples, m)
  {
    hide HealthOf, ValidStorageHealth, InRange;
    var i :| 0 <= i < |samples| && samples[i].ok && m == HealthOf(samples[i].doc);
    HealthPassesIff(samples[i].doc);
  }

  // ---- when the merged inventory is valid ----

  /**
   * Merging one sample keeps the device keys distinct exactly when the sample is one of the devices or its key is
   * not taken.
   */
  lemma KeysStayDistinctIff(m: Merged, s: Sample)
    requires DistinctKeys(m.devices)
    ensures var found := BlockDeviceFromSmart(s);
      DistinctKeys(MergeOne(m, s).devices)
      <==> (exists i :: 0 <= i < |m.devices| && SameDevice(m.devices[i].attrs, found.attrs)) || found.key !in KeysOf(m.devices)
  {
    hide BlockDeviceFromSmart, MergeBlockDevice, HealthOf, SameDevice;
    var found := BlockDeviceFromSmart(s);
    var d := MergeOne(m, s).devices;
    if MatchIndex(m.devices, found.attrs) == |m.devices| {
      assert d == m.devices + [found];
      if found.key in KeysOf(m.devices) {
        var i :| 0 <= i < |m.devices| && m.devices[i].key == found.key;
        assert d[i].key == d[|m.devices|].key;
      }
    }
  }

  /** When its turn comes, the sample is none of the devices and its key is one of theirs. */
  ghost predicate CollidesAt(inventory: seq<Device>, samples: seq<Sample>, n: nat)
    requires n < |samples|
  {
    var devices, found := MergeAll(inventory, samples[..n]).devices, BlockDeviceFromSmart(samples[n]);
    samples[n].ok && found.key in KeysOf(devices) && forall i :: 0 <= i < |devices| ==> !SameDevice(devices[i].attrs, found.attrs)
  }

  ghost predicate Collides(inventory: seq<Device>, samples: seq<Sample>) {
    exists n :: 0 <= n < |samples| && CollidesAt(inventory, samples, n)
  }

  lemma CollidesStep(inventory: seq<Device>, samples: seq<Sample>)
    requires samples != []
    ensures var n := |samples| - 1; Collides(inventory, samples) <==> Collides(inventory, samples[..n]) || CollidesAt(inventory, samples, n)
  {
    hide MergeAll, BlockDeviceFromSmart, SameDevice;
    var n := |samples| - 1;
    assert forall i :: 0 <= i < n ==> samples[..n][..i] == samples[..i] && samples[..n][i] == samples[i];
    if Collides(inventory, samples[..n]) {
      var i :| 0 <= i < n && CollidesAt(inventory, samples[..n], i);
      assert CollidesAt(inventory, samples, i);
    }
    if Collides(inventory, samples) {
      var i :| 0 <= i < |samples| && CollidesAt(inventory, samples, i);
      assert i < n ==> CollidesAt(inventory, samples[..n], i);
    }
  }

  lemma MergedStayDouble(m: Merged, s: Sample)
    requires !DistinctKeys(m.devices)
    ensures !DistinctKeys(MergeOne(m, s).devices)
  {
    hide BlockDeviceFromSmart, MergeBlockDevice, HealthOf, SameDevice, MatchIndex;
    var d := MergeOne(m, s).devices;
    var i, j :| 0 <= i < j < |m.devices| && m.devices[i].key == m.devices[j].key;
    assert d[i].key == d[j].key;
  }

  lemma {:induction false} MergedKeysDistinctIff(inventory: seq<Device>, samples: seq<Sample>)
    requires DistinctKeys(inventory)
    ensures DistinctKeys(MergeAll(inventory, samples).devices) <==> !Collides(inventory, samples)
  {
    hide BlockDeviceFromSmart, MergeOne, SameDevice, Collides;
    if samples == [] {
      assert !Collides(inventory, samples) by { NothingCollides(inventory, samples); }
    } else {
      var n := |samples| - 1;
      var before := MergeAll(inventory, samples[..n]);
      MergedKeysDistinctIff(inventory, samples[..n]);
      CollidesStep(inventory, samples);
      if samples[n].ok {
        if DistinctKeys(before.devices) {
          KeysStayDistinctIff(before, samples[n]);
        } else {
          MergedStayDouble(before, samples[n]);
        }
      }
    }
  }

  lemma NothingCollides(inventory: seq<Device>, samples: seq<Sample>)
    requires samples == []
    ensures !Collides(inventory, samples)
  {}

  /**
   * The inventory with the returned devices in it is valid again exactly when there are at most 4096 of them and no
   * sample collides.
   */
  lemma {:induction false} MergedInventoryValidIff(inv: Inventory, samples: seq<Sample>, devices: seq<Device>)
    requires ValidInventory(inv) && forall i :: 0 <= i < |inv.blockDevices| ==> GoodKey(inv.blockDevices[i].key)
    requires forall i :: 0 <= i < |samples| ==> !Blank(samples[i].scanned.name)
    requires multiset(devices) == multiset(MergeAll(inv.blockDevices, samples).devices)
    ensures ValidInventory(inv.(blockDevices := devices)) <==> |devices| <= 4096 && !Collides(inv.blockDevices, samples)
  {
    hide UsableKeys, ValidCpuPackage, ValidMemoryModule, ValidFilesystem, ValidInterface, ValidGpu, ValidBlockDevice, GoodKey, Blank,
      BlockDeviceFromSmart, Collides, AllValid, DistinctKeys;
    var merged := MergeAll(inv.blockDevices, samples).devices;
    UsableKeysAreDistinct(inv.blockDevices);
    MergedKeysDistinctIff(inv.blockDevices, samples);
    MergeSurvives(inv.blockDevices, samples);
    ListedAllValid(inv.blockDevices);
    DevicesStayValid(inv.blockDevices, samples);
    hide MergeAll;
    PermutedDevices(merged, devices);
  }

  lemma ListedAllValid(devices: seq<Device>)
    requires forall x :: x in devices ==> ValidBlockDevice(x.attrs)
    ensures AllValid(devices)
  {}

  lemma PermutedDevices(merged: seq<Device>, devices: seq<Device>)
    requires multiset(devices) == multiset(merged) && AllValid(merged)
    requires forall i :: 0 <= i < |merged| ==> GoodKey(merged[i].key)
    ensures forall x :: x in devices ==> ValidBlockDevice(x.attrs)
    ensures UsableKeys(devices) <==> DistinctKeys(merged)
  {
    hide ValidBlockDevice, GoodKey, UsableKeys;
    MemberOfMultiset(devices, merged);
    forall i | 0 <= i < |devices| ensures GoodKey(devices[i].key) {
      assert devices[i] in merged;
    }
    if DistinctKeys(merged) {
      PermutedKeys(merged, devices);
      GoodDistinctKeysUsable(devices);
    }
    if UsableKeys(devices) {
      UsableKeysAreDistinct(devices);
      PermutedKeys(devices, merged);
    }
  }

  // ---- which sample is which device ----

  /** The name a sample goes by. */
  function NameOf(s: Sample): string {
    FirstNonEmpty([if s.doc.device.name == "" then s.scanned.name else s.doc.device.name, s.scanned.name])
  }

  /** The sample's device type names a controller's pass-through. */
  predicate PassesThrough(s: Sample) {
    IsRaidType(FirstNonEmpty([if s.doc.device.name == "" then s.scanned.kind else s.doc.device.kind, s.scanned.kind]))
  }

  /**
   * A sample is a device with its serial number or its world-wide name, when it has one; or, unless it was read through
   * a controller, a device with its name.
   */
  lemma SampleIsDeviceIff(d: BlockDevice, s: Sample)
    ensures SameDevice(d, BlockDeviceFromSmart(s).attrs) <==>
      || (s.doc.serialNumber != "" && d.serialNumber == s.doc.serialNumber)
      || (s.doc.logicalUnitId != "" && d.wwn == s.doc.logicalUnitId)
      || (!PassesThrough(s) && NameOf(s) != "" && d.deviceName == NameOf(s))
  {
    hide IsRaidType, SmartUint, FirstNonEmpty, TrimSpace;
  }

  /** Disks behind controllers: each with a serial number of its own, and no world-wide name. */
  ghost predicate ControllerMembers(inventory: seq<Device>, samples: seq<Sample>) {
    && (forall i :: 0 <= i < |samples| ==>
          && samples[i].ok && PassesThrough(samples[i]) && samples[i].doc.logicalUnitId == ""
          && samples[i].doc.serialNumber != "" && Trimmed(samples[i].doc.serialNumber))
    && (forall i, j :: 0 <= i < j < |samples| ==> samples[i].doc.serialNumber != samples[j].doc.serialNumber)
    && (forall d, i :: d in inventory && 0 <= i < |samples| ==> d.attrs.serialNumber != samples[i].doc.serialNumber)
  }

  lemma MemberFound(s: Sample)
    requires s.doc.logicalUnitId == "" && s.doc.serialNumber != "" && Trimmed(s.doc.serialNumber)
    ensures var found := BlockDeviceFromSmart(s); found.key == s.doc.serialNumber == found.attrs.serialNumber && found.attrs.wwn == ""
  {
    TrimmedIsFixed(s.doc.serialNumber);
    hide IsRaidType, SmartUint, TrimSpace;
  }

  function FoundIn(samples: seq<Sample>): (devices: seq<Device>)
    ensures |devices| == |samples|
  {
    seq(|samples|, i requires 0 <= i < |samples| => BlockDeviceFromSmart(samples[i]))
  }

  function HealthBySerial(samples: seq<Sample>): (health: seq<Item<StorageHealth>>)
    ensures |health| == |samples|
  {
    seq(|samples|, i requires 0 <= i < |samples| => Item(samples[i].doc.serialNumber, HealthOf(samples[i].doc)))
  }

  lemma NewDeviceMerges(m: Merged, s: Sample)
    requires forall i :: 0 <= i < |m.devices| ==> !SameDevice(m.devices[i].attrs, BlockDeviceFromSmart(s).attrs)
    requires forall i :: 0 <= i < |m.health| ==> m.health[i].key != BlockDeviceFromSmart(s).key
    ensures MergeOne(m, s) == Merged(m.devices + [BlockDeviceFromSmart(s)], m.health + [Item(BlockDeviceFromSmart(s).key, HealthOf(s.doc))])
  {
    hide BlockDeviceFromSmart, HealthOf, SameDevice;
    assert MatchIndex(m.devices, BlockDeviceFromSmart(s).attrs) == |m.devices|;
  }

  lemma MemberIsNew(inventory: seq<Device>, samples: seq<Sample>, i: nat)
    requires ControllerMembers(inventory, samples) && samples != [] && i < |inventory| + |samples| - 1
    ensures var n := |samples| - 1;
      !SameDevice((inventory + FoundIn(samples[..n]))[i].attrs, BlockDeviceFromSmart(samples[n]).attrs)
  {
    hide BlockDeviceFromSmart, SameDevice, PassesThrough, TrimSpace;
    var n := |samples| - 1;
    var d := (inventory + FoundIn(samples[..n]))[i].attrs;
    SampleIsDeviceIff(d, samples[n]);
    if i < |inventory| {
      assert inventory[i] in inventory;
    } else {
      MemberFound(samples[i - |inventory|]);
    }
  }

  lemma LastMember(inventory: seq<Device>, samples: seq<Sample>)
    requires ControllerMembers(inventory, samples) && samples != []
    ensures var n := |samples| - 1;
      && ControllerMembers(inventory, samples[..n]) && samples[n].ok && BlockDeviceFromSmart(samples[n]).key == samples[n].doc.serialNumber
      && FoundIn(samples) == FoundIn(samples[..n]) + [BlockDeviceFromSmart(samples[n])]
      && HealthBySerial(samples) == HealthBySerial(samples[..n]) + [Item(samples[n].doc.serialNumber, HealthOf(samples[n].doc))]
      && forall i :: 0 <= i < n ==> HealthBySerial(samples[..n])[i].key != samples[n].doc.serialNumber
  {
    hide BlockDeviceFromSmart, HealthOf, PassesThrough, TrimSpace;
    MemberFound(samples[|samples| - 1]);
  }

  lemma MergeLast(inventory: seq<Device>, samples: seq<Sample>)
    requires samples != [] && samples[|samples| - 1].ok
    ensures MergeAll(inventory, samples) == MergeOne(MergeAll(inventory, samples[..|samples| - 1]), samples[|samples| - 1])
  {
    hide MergeOne;
  }

  lemma MemberMerges(inventory: seq<Device>, samples: seq<Sample>)
    requires ControllerMembers(inventory, samples) && samples != []
    ensures var n := |samples| - 1;
      MergeOne(Merged(inventory + FoundIn(samples[..n]), HealthBySerial(samples[..n])), samples[n])
      == Merged(inventory + FoundIn(samples), HealthBySerial(samples))
  {
    hide BlockDeviceFromSmart, HealthOf, SameDevice, MergeOne, ControllerMembers, FoundIn, HealthBySerial;
    LastMember(inventory, samples);
    var n := |samples| - 1;
    var before, s := Merged(inventory + FoundIn(samples[..n]), HealthBySerial(samples[..n])), samples[n];
    forall i | 0 <= i < |before.devices| ensures !SameDevice(before.devices[i].attrs, BlockDeviceFromSmart(s).attrs) {
      MemberIsNew(inventory, samples, i);
    }
    NewDeviceMerges(before, s);
    assert inventory + FoundIn(samples) == inventory + FoundIn(samples[..n]) + [BlockDeviceFromSmart(s)];
  }

  /** Each of them gets its own device and its own health row, whatever the names they share. */
  lemma {:induction false} ControllerMembersStayApart(inventory: seq<Device>, samples: seq<Sample>)
    requires ControllerMembers(inventory, samples)
    ensures MergeAll(inventory, samples) == Merged(inventory + FoundIn(samples), HealthBySerial(samples))
  {
    if samples == [] {
      assert inventory + [] == inventory;
    } else {
      LastMember(inventory, samples);
      hide *;
      ControllerMembersStayApart(inventory, samples[..|samples| - 1]);
      MergeLast(inventory, samples);
      MemberMerges(inventory, samples);
    }
  }

  // ---- inputs the validator rejects ----

  /** A disk as the collector lists it: its serial number is its key. */
  function ListedDisk(serial: string): Device {
    Item(serial, BlockDevice("/dev/sda", "disk", "", "", serial, "", 0, None, "", "", false))
  }

  /** The same disk as smartctl sees it behind its controller, the serial number padded with a blank. */
  function PaddedSample(serial: string): Sample {
    var scanned := SmartDevice("/dev/bus/0", "megaraid,0", "");
    Sample(
      scanned,
      SmartDoc(0, scanned, "", serial + " ", "", "", "", "", None, "", true, true, Some(true), None, "", [], "", NvmeLog("", None, None, "", ""), []),
      true)
  }

  lemma PaddedFound(serial: string)
    requires Trimmed(serial) && serial != ""
    ensures var found := BlockDeviceFromSmart(PaddedSample(serial));
      found.key == serial && found.attrs.deviceName != "/dev/sda" && found.attrs.serialNumber == serial + " " && found.attrs.wwn == ""
  {
    PaddingTrimmed(serial);
    TrimmedIsFixed("/dev/bus/0");
    assert "/dev/bus/0" != "/dev/sda";
    hide TrimSpace, IsRaidType, SmartUint;
  }

  lemma PaddingTrimmed(serial: string)
    requires Trimmed(serial) && serial != ""
    ensures TrimSpace(serial + " ") == serial
  {
    var padded := serial + " ";
    assert padded[0] == serial[0] && !IsSpace(padded[0]);
    assert TrimLeft(padded) == padded;
    assert padded[|padded| - 1] == ' ' && padded[..|padded| - 1] == serial;
    assert TrimRight(padded) == TrimRight(serial);
  }

  lemma PaddedIsOther(serial: string, found: BlockDevice)
    requires found.serialNumber == serial + " " && found.wwn == "" && found.deviceName != "/dev/sda"
    ensures !SameDevice(ListedDisk(serial).attrs, found)
  {
    assert |serial| != |serial + " "|;
  }

  lemma PaddedNamed(serial: string)
    requires Trimmed(serial) && serial != ""
    ensures !Blank(PaddedSample(serial).scanned.name) && GoodKey(ListedDisk(serial).key)
  {
    TrimmedIsFixed("/dev/bus/0");
  }

  lemma PaddedCollides(serial: string)
    requires Trimmed(serial) && serial != ""
    ensures Collides([ListedDisk(serial)], [PaddedSample(serial)])
  {
    var listed, samples := [ListedDisk(serial)], [PaddedSample(serial)];
    PaddedFound(serial);
    hide BlockDeviceFromSmart, Blank, MergeBlockDevice;
    var found := BlockDeviceFromSmart(samples[0]);
    PaddedIsOther(serial, found.attrs);
    assert listed[0].key == found.key;
    assert samples[0].ok;
    hide SameDevice, ListedDisk, PaddedSample;
    assert samples[..0] == [] && MergeAll(listed, samples[..0]).devices == listed;
    assert CollidesAt(listed, samples, 0);
  }

  /** A disk whose serial number smartctl pads is added a second time under its own key: the validator rejects the report. */
  lemma PaddedSerialRejected(inv: Inventory, serial: string, devices: seq<Device>)
    requires ValidInventory(inv) && inv.blockDevices == [ListedDisk(serial)] && Trimmed(serial) && serial != ""
    requires multiset(devices) == multiset(MergeAll(inv.blockDevices, [PaddedSample(serial)]).devices)
    ensures !ValidInventory(inv.(blockDevices := devices))
  {
    hide ListedDisk, PaddedSample, Collides, ValidInventory, GoodKey, Blank, MergeAll;
    PaddedCollides(serial);
    PaddedNamed(serial);
    MergedInventoryValidIff(inv, [PaddedSample(serial)], devices);
  }

  /** Uncorrected errors that fit bigint one by one but not together: the validator rejects the metrics. */
  lemma LargeSumRejected(inv: Inventory, m: Metrics, s: Sample)
    requires s.ok && s.doc.scsiUncorrected == LargeCounters()
    ensures !ValidMetrics(inv, m.(storageHealth := MergeAll([], [s]).health))
  {
    SumOverflows(s.doc);
    hide BlockDeviceFromSmart, HealthOf, ValidStorageHealth;
    assert [s][..0] == [];
    assert MergeAll([], [s]) == MergeOne(Merged([], []), s);
    var health := MergeAll([], [s]).health;
    assert |health| == 1 && health[0].attrs == HealthOf(s.doc);
    assert health[0] in health;
  }
}
