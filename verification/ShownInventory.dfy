/** The active rows of a node against the inventory as the agent reported it, column by column. */
module ShownInventory {
  import opened Text
  import opened Clock
  import opened Reports
  import opened Sorting
  import opened Inventories
  import opened InventoryTables
  import opened NetworkTables
  import opened NetworkFacts
  import opened InventoryDatabase

  ghost predicate ActiveFor<O, T>(t: Table<O, T>, o: O, key: string, id: Id) {
    id in t.rows && t.rows[id].owner == o && t.rows[id].removedAt.None? && t.rows[id].key == key
  }

  /** The owner's active rows are one for each listed item, and say of it what they should. */
  ghost predicate OneRowEach<O, T, U>(t: Table<O, T>, o: O, items: seq<Item<U>>, says: (T, U) -> bool) {
    && (forall id, key :: ActiveFor(t, o, key, id) ==> key in KeysOf(items))
    && (forall x :: x in items ==> exists id :: ActiveFor(t, o, x.key, id) && says(t.rows[id].attrs, x.attrs))
    && (forall i, j, key :: ActiveFor(t, o, key, i) && ActiveFor(t, o, key, j) ==> i == j)
  }

  /** The address with the greatest text of those that denote this inet value; two texts may denote one. */
  ghost predicate Denotes(a: Address, addresses: seq<Address>, inet: string) {
    a in addresses && a.inet == inet && forall b :: b in addresses && b.inet == inet ==> !Less(a.text, b.text)
  }

  /** One active row for each inet value the interface reports, with the scope its address states. */
  ghost predicate ShowsAddresses(t: Table<AddressOwner, string>, o: AddressOwner, addresses: seq<Address>) {
    && (forall id, inet :: ActiveFor(t, o, inet, id) ==> exists a :: Denotes(a, addresses, inet) && t.rows[id].attrs == a.scope)
    && (forall a :: a in addresses ==> exists id :: ActiveFor(t, o, a.inet, id))
    && (forall i, j, inet :: ActiveFor(t, o, inet, i) && ActiveFor(t, o, inet, j) ==> i == j)
  }

  ghost predicate ShowsInventory(db: InventoryDb, node: NodeId, inv: Inventory) {
    && OneRowEach(db.cpuPackages, node, inv.cpuPackages, (r: CpuPackage, x: CpuPackage) => r == x)
    && OneRowEach(db.memoryModules, node, inv.memoryModules, (r: MemoryModule, x: MemoryModule) => r == x)
    && OneRowEach(db.blockDevices, node, inv.blockDevices, (r: BlockDevice, x: BlockDevice) => r == x)
    && OneRowEach(db.gpus, node, inv.gpus, (r: Gpu, x: Gpu) => r == x)
    && OneRowEach(db.filesystems, node, inv.filesystems, (r: Filesystem, x: Filesystem) =>
         && r.uuid == x.uuid && r.deviceName == x.deviceName && r.filesystemType == x.filesystemType && r.mountPoint == x.mountPoint
         && multiset(r.mountOptions) == multiset(x.mountOptions))
    && OneRowEach(db.net.nics, node, inv.networkInterfaces, (r: Nic, x: NetworkInterface) =>
         r.name == x.name && r.macAddress == x.macAddress && r.mtu == x.mtu && r.linkSpeedMbps == x.linkSpeedMbps)
    && (forall x, id :: x in inv.networkInterfaces && ActiveFor(db.net.nics, node, x.key, id) ==>
          ShowsAddresses(db.net.addresses, AddressOwner(node, id), x.attrs.addresses))
  }

  // ---- one table ----

  lemma TableShows<O, T, U>(t: Table<O, T>, o: O, items: seq<Item<U>>, f: U -> T, says: (T, U) -> bool)
    requires DistinctKeys(items) && Projects(t, o, OnAttrs(f, SortBy(KeyOf, items)))
    requires forall x :: x in items ==> says(f(x.attrs), x.attrs)
    ensures OneRowEach(t, o, items, says)
  {
    hide SortBy, DistinctKeys, LastWins, Active;
    SortedMapped(f, items);
    var view := Active(t, o);
    ActiveAt(t, o);
    assert Attrs(view).Keys == LastWins(items).Keys;
    forall id, key | ActiveFor(t, o, key, id) ensures key in KeysOf(items) {
      assert IsActive(t.rows[id], o);
      assert key in Attrs(view);
    }
    forall x | x in items ensures exists id :: ActiveFor(t, o, x.key, id) && says(t.rows[id].attrs, x.attrs) {
      MemberIffMapped(items, x);
      assert x.key in Attrs(view) && Attrs(view)[x.key] == f(x.attrs);
      assert Backed(t, o, x.key, view[x.key]);
      assert ActiveFor(t, o, x.key, view[x.key].id);
    }
    forall i, j, key | ActiveFor(t, o, key, i) && ActiveFor(t, o, key, j) ensures i == j {
      assert BothActive(t.rows[i], t.rows[j]);
    }
  }

  lemma PlainShows<O, T>(t: Table<O, T>, o: O, items: seq<Item<T>>, says: (T, T) -> bool)
    requires DistinctKeys(items) && Projects(t, o, SortBy(KeyOf, items))
    requires forall x :: x in items ==> says(x.attrs, x.attrs)
    ensures OneRowEach(t, o, items, says)
  {
    assert OnAttrs(Itself, SortBy(KeyOf, items)) == SortBy(KeyOf, items);
    TableShows(t, o, items, Itself, says);
  }

  // ---- addresses ----

  lemma {:induction false} LastWinsIs<T>(items: seq<Item<T>>, k: string) returns (i: nat)
    requires k in LastWins(items)
    ensures i < |items| && items[i] == Item(k, LastWins(items)[k])
    ensures forall j :: i < j < |items| ==> items[j].key != k
  {
    var n := |items| - 1;
    if items[n].key == k {
      i := n;
    } else {
      i := LastWinsIs(items[..n], k);
    }
  }

  /** In text order, the last scope of an inet value is the one of its greatest text. */
  lemma LastScope(addresses: seq<Address>, inet: string) returns (a: Address)
    requires inet in LastWins(AddressItems(SortBy(TextOf, addresses)))
    ensures Denotes(a, addresses, inet) && LastWins(AddressItems(SortBy(TextOf, addresses)))[inet] == a.scope
  {
    var sorted := SortBy(TextOf, addresses);
    var items := AddressItems(sorted);
    SortBySorted(TextOf, addresses);
    MemberOfMultiset(sorted, addresses);
    hide SortBy, Less;
    var i := LastWinsIs(items, inet);
    a := sorted[i];
    forall b | b in addresses && b.inet == inet ensures !Less(a.text, b.text) {
      var j :| 0 <= j < |sorted| && sorted[j] == b;
      assert items[j].key == inet;
      if i == j {
        LessIrreflexive(a.text);
      }
    }
  }

  lemma EachListed(addresses: seq<Address>, a: Address)
    requires a in addresses
    ensures a.inet in LastWins(AddressItems(SortBy(TextOf, addresses)))
  {
    var sorted := SortBy(TextOf, addresses);
    MemberOfMultiset(sorted, addresses);
    hide SortBy;
    var j :| 0 <= j < |sorted| && sorted[j] == a;
    assert AddressItems(sorted)[j].key == a.inet;
  }

  lemma AddressesShown(t: Table<AddressOwner, string>, o: AddressOwner, addresses: seq<Address>)
    requires Projects(t, o, AddressItems(SortBy(TextOf, addresses)))
    ensures ShowsAddresses(t, o, addresses)
  {
    hide SortBy, Active, Less, LastWins, AddressItems, Denotes;
    var view := Active(t, o);
    ActiveAt(t, o);
    forall id, inet | ActiveFor(t, o, inet, id) ensures exists a :: Denotes(a, addresses, inet) && t.rows[id].attrs == a.scope {
      assert IsActive(t.rows[id], o);
      assert inet in Attrs(view) && Attrs(view)[inet] == t.rows[id].attrs;
      var a := LastScope(addresses, inet);
    }
    forall a | a in addresses ensures exists id :: ActiveFor(t, o, a.inet, id) {
      EachListed(addresses, a);
      assert a.inet in Attrs(view);
      assert Backed(t, o, a.inet, view[a.inet]);
      assert ActiveFor(t, o, a.inet, view[a.inet].id);
    }
    forall i, j, inet | ActiveFor(t, o, inet, i) && ActiveFor(t, o, inet, j) ensures i == j {
      assert BothActive(t.rows[i], t.rows[j]);
    }
  }

  // ---- all tables ----

  /** Rows that show the normal form of a valid inventory show the inventory. */
  lemma ProjectedIsShown(db: InventoryDb, node: NodeId, inv: Inventory)
    requires ProjectsInventory(db, node, Normalize(inv)) && KeysDistinct(inv)
    ensures ShowsInventory(db, node, inv)
  {
    hide Projects, SortBy, DistinctKeys, OneRowEach, ShowsAddresses;
    PlainShows(db.cpuPackages, node, inv.cpuPackages, (r: CpuPackage, x: CpuPackage) => r == x);
    PlainShows(db.memoryModules, node, inv.memoryModules, (r: MemoryModule, x: MemoryModule) => r == x);
    PlainShows(db.blockDevices, node, inv.blockDevices, (r: BlockDevice, x: BlockDevice) => r == x);
    PlainShows(db.gpus, node, inv.gpus, (r: Gpu, x: Gpu) => r == x);
    TableShows(db.filesystems, node, inv.filesystems, NormalFilesystem, (r: Filesystem, x: Filesystem) =>
      && r.uuid == x.uuid && r.deviceName == x.deviceName && r.filesystemType == x.filesystemType && r.mountPoint == x.mountPoint
      && multiset(r.mountOptions) == multiset(x.mountOptions));
    NetworkShown(db.net, node, inv.networkInterfaces);
  }

  lemma NetworkShown(nt: NetTables, node: NodeId, items: seq<Item<NetworkInterface>>)
    requires DistinctKeys(items) && ProjectsNet(nt, node, OnAttrs(NormalInterface, SortBy(KeyOf, items)))
    ensures OneRowEach(nt.nics, node, items, (r: Nic, x: NetworkInterface) =>
              r.name == x.name && r.macAddress == x.macAddress && r.mtu == x.mtu && r.linkSpeedMbps == x.linkSpeedMbps)
    ensures forall x, id :: x in items && ActiveFor(nt.nics, node, x.key, id) ==>
              ShowsAddresses(nt.addresses, AddressOwner(node, id), x.attrs.addresses)
  {
    hide SortBy, DistinctKeys, OneRowEach, ShowsAddresses, Active;
    var sorted := SortBy(KeyOf, items);
    var normal := OnAttrs(NormalInterface, sorted);
    var nic := (x: NetworkInterface) => Nic(x.name, x.macAddress, x.mtu, x.linkSpeedMbps);
    assert NicItems(normal) == OnAttrs(nic, sorted);
    TableShows(nt.nics, node, items, nic, (r: Nic, x: NetworkInterface) =>
      r.name == x.name && r.macAddress == x.macAddress && r.mtu == x.mtu && r.linkSpeedMbps == x.linkSpeedMbps);
    MemberOfMultiset(sorted, items);
    ActiveAt(nt.nics, node);
    forall x, id | x in items && ActiveFor(nt.nics, node, x.key, id)
      ensures ShowsAddresses(nt.addresses, AddressOwner(node, id), x.attrs.addresses)
    {
      assert x in sorted;
      var j :| 0 <= j < |sorted| && sorted[j] == x;
      assert AddressesProjected(nt, node, normal[j]);
      assert IsActive(nt.nics.rows[id], node);
      assert NicId(nt, node, x.key) == id;
      AddressesShown(nt.addresses, AddressOwner(node, id), x.attrs.addresses);
    }
  }
}
