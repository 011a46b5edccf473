/** Network interfaces and their addresses: `syncNetworkInterfaces` (internal/store/ingest.go). */
module NetworkTables {
  import opened Text
  import opened Clock
  import opened Reports
  import opened Inventories
  import opened InventoryTables

  type NodeId = string

  datatype Nic = Nic(name: string, macAddress: string, mtu: int, linkSpeedMbps: int)

  /** The composite foreign key of `network_addresses`. */
  datatype AddressOwner = AddressOwner(node: NodeId, nic: Id)

  datatype NetTables = NetTables(nics: Table<NodeId, Nic>, addresses: Table<AddressOwner, string>)

  function NicOf(n: NetworkInterface): Nic {
    Nic(n.name, n.macAddress, n.mtu, n.linkSpeedMbps)
  }

  /** An address row is keyed by its inet value; two texts may denote one inet. */
  function AddressItems(addresses: seq<Address>): (items: seq<Item<string>>)
    ensures |items| == |addresses|
  {
    seq(|addresses|, i requires 0 <= i < |addresses| => Item(addresses[i].inet, addresses[i].scope))
  }

  ghost predicate WfNet(nt: NetTables) {
    Wf(nt.nics) && Wf(nt.addresses)
  }

  /** The interface a live address hangs on exists, belongs to the node, and is itself active. */
  ghost predicate NoOrphans(nt: NetTables) {
    forall id :: id in nt.addresses.rows && nt.addresses.rows[id].removedAt.None? ==>
      LiveNic(nt.nics, nt.addresses.rows[id].owner)
  }

  predicate LiveNic(nics: Table<NodeId, Nic>, o: AddressOwner) {
    o.nic in nics.rows && nics.rows[o.nic].removedAt.None? && nics.rows[o.nic].owner == o.node
  }

  // ---- the statements ----

  function RetireExcept(t: Table<AddressOwner, string>, o: AddressOwner, ids: set<Id>, at: Instant): Table<AddressOwner, string> {
    t.(rows := map id | id in t.rows ::
      if IsActive(t.rows[id], o) && id !in ids then t.rows[id].(removedAt := Some(at)) else t.rows[id])
  }

  function RetireOrphans(nt: NetTables, node: NodeId, at: Instant): Table<AddressOwner, string> {
    nt.addresses.(rows := map id | id in nt.addresses.rows ::
      var r := nt.addresses.rows[id];
      if r.owner.node == node && r.removedAt.None?
         && !(r.owner.nic in nt.nics.rows && nt.nics.rows[r.owner.nic].removedAt.None?)
      then r.(removedAt := Some(at)) else r)
  }

  ghost function SyncNic(nt: NetTables, node: NodeId, item: Item<NetworkInterface>, at: Instant): NetTables
    requires WfNet(nt)
  {
    var nics := Upsert(nt.nics, node, Item(item.key, NicOf(item.attrs)), at);
    UpsertView(nt.nics, node, Item(item.key, NicOf(item.attrs)), at);
    var id := Active(nics, node)[item.key].id;
    NetTables(nics, Sync(nt.addresses, AddressOwner(node, id), AddressItems(item.attrs.addresses), at))
  }

  lemma SyncNicWf(nt: NetTables, node: NodeId, item: Item<NetworkInterface>, at: Instant)
    requires WfNet(nt)
    ensures WfNet(SyncNic(nt, node, item, at))
  {
    hide Active;
    var nic := Item(item.key, NicOf(item.attrs));
    UpsertView(nt.nics, node, nic, at);
    var id := Active(Upsert(nt.nics, node, nic, at), node)[item.key].id;
    SyncView(nt.addresses, AddressOwner(node, id), AddressItems(item.attrs.addresses), at);
  }

  ghost function SyncNics(nt: NetTables, node: NodeId, items: seq<Item<NetworkInterface>>, at: Instant): (r: NetTables)
    requires WfNet(nt)
    ensures WfNet(r)
  {
    if items == [] then nt
    else
      var n := |items| - 1;
      SyncNicWf(SyncNics(nt, node, items[..n], at), node, items[n], at);
      SyncNic(SyncNics(nt, node, items[..n], at), node, items[n], at)
  }

  ghost function SyncNetwork(nt: NetTables, node: NodeId, items: seq<Item<NetworkInterface>>, at: Instant): NetTables
    requires WfNet(nt)
  {
    Close(SyncNics(nt, node, items, at), node, KeysOf(items), at)
  }

  /** Closing the interfaces that were not reported, then the addresses left on closed interfaces. */
  function Close(nt: NetTables, node: NodeId, keys: set<string>, at: Instant): NetTables {
    var retired := nt.(nics := Retire(nt.nics, node, keys, at));
    retired.(addresses := RetireOrphans(retired, node, at))
  }

  // ---- the loops ----

  /** `UPDATE ... RETURNING id`, or `INSERT ... RETURNING id`. */
  method UpsertReturningId<O(==), T>(t: Table<O, T>, o: O, item: Item<T>, at: Instant) returns (r: Table<O, T>, id: Id)
    requires Wf(t)
    ensures r == Upsert(t, o, item, at) && Wf(r)
    ensures item.key in Active(r, o) && id == Active(r, o)[item.key].id
  {
    hide Active;
    UpsertView(t, o, item, at);
    ActiveAt(t, o);
    if Affected(t, o, item.key) {
      id :| id in t.rows && IsActiveKey(t.rows[id], o, item.key);
      r := Update(t, o, item, at);
    } else {
      id := t.next;
      r := InsertRow(t, o, item, at);
    }
  }

  /** The inner loop collects row ids, and closes the address rows whose id it did not collect. */
  method SyncAddresses(t: Table<AddressOwner, string>, o: AddressOwner, addresses: seq<Address>, at: Instant)
    returns (r: Table<AddressOwner, string>)
    requires Wf(t)
    ensures r == Sync(t, o, AddressItems(addresses), at)
  {
    hide Active;
    var items := AddressItems(addresses);
    r := t;
    var ids: set<Id> := {};
    for i := 0 to |addresses|
      invariant r == UpsertAll(t, o, items[..i], at) && Wf(r)
      invariant KeysOf(items[..i]) <= Active(r, o).Keys
      invariant forall id :: id in ids <==> exists k :: k in KeysOf(items[..i]) && Active(r, o)[k].id == id
    {
      var id;
      var before := r;
      UpsertView(before, o, items[i], at);
      r, id := UpsertReturningId(before, o, Item(addresses[i].inet, addresses[i].scope), at);
      assert items[..i + 1][..i] == items[..i];
      KeysOfLast(items[..i + 1]);
      forall k | k in KeysOf(items[..i]) ensures k in Active(r, o) && Active(r, o)[k].id == Active(before, o)[k].id {}
      ids := ids + {id};
      assert items[i].key in KeysOf(items[..i + 1]);
    }
    assert items[..|addresses|] == items;
    ActiveAt(r, o);
    var u := r;
    r := RetireExcept(u, o, ids, at);
    forall id | id in u.rows && IsActive(u.rows[id], o) ensures id in ids <==> u.rows[id].key in KeysOf(items) {
      assert Active(u, o)[u.rows[id].key].id == id;
    }
    assert r == Retire(u, o, KeysOf(items), at);
  }

  method SyncNetworkInterfaces(nt: NetTables, node: NodeId, items: seq<Item<NetworkInterface>>, at: Instant)
    returns (r: NetTables)
    requires WfNet(nt)
    ensures r == SyncNetwork(nt, node, items, at)
  {
    hide Active;
    r := nt;
    var keys: set<string> := {};
    for i := 0 to |items|
      invariant r == SyncNics(nt, node, items[..i], at)
      invariant keys == KeysOf(items[..i])
    {
      keys := keys + {items[i].key};
      assert items[..i + 1][..i] == items[..i];
      KeysOfLast(items[..i + 1]);
      var nics, id := UpsertReturningId(r.nics, node, Item(items[i].key, NicOf(items[i].attrs)), at);
      var addresses := SyncAddresses(r.addresses, AddressOwner(node, id), items[i].attrs.addresses, at);
      r := NetTables(nics, addresses);
    }
    assert items[..|items|] == items;
    r := r.(nics := Retire(r.nics, node, keys, at));
    r := r.(addresses := RetireOrphans(r, node, at));
  }
}
