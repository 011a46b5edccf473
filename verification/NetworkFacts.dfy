/** What a network synchronisation keeps and achieves. */
module NetworkFacts {
  import opened Text
  import opened Clock
  import opened Reports
  import opened Inventories
  import opened InventoryTables
  import opened NetworkTables

  ghost function NicItems(items: seq<Item<NetworkInterface>>): seq<Item<Nic>> {
    OnAttrs(NicOf, items)
  }

  ghost function NicId(nt: NetTables, node: NodeId, key: string): Id
    requires Wf(nt.nics) && key in Active(nt.nics, node)
  {
    Active(nt.nics, node)[key].id
  }

  ghost predicate AddressesProjected(nt: NetTables, node: NodeId, item: Item<NetworkInterface>) {
    && Wf(nt.nics) && item.key in Active(nt.nics, node)
    && Projects(nt.addresses, AddressOwner(node, NicId(nt, node, item.key)), AddressItems(item.attrs.addresses))
  }

  /** The active interfaces and, per interface, the active addresses are exactly those reported. */
  ghost predicate ProjectsNet(nt: NetTables, node: NodeId, items: seq<Item<NetworkInterface>>) {
    && WfNet(nt) && Projects(nt.nics, node, NicItems(items))
    && forall j :: 0 <= j < |items| ==> AddressesProjected(nt, node, items[j])
  }

  lemma NicItemsKeys(items: seq<Item<NetworkInterface>>)
    ensures KeysOf(NicItems(items)) == KeysOf(items)
    ensures DistinctKeys(items) ==> DistinctKeys(NicItems(items))
  {
    forall k | k in KeysOf(items) ensures k in KeysOf(NicItems(items)) {
      var j :| 0 <= j < |items| && items[j].key == k;
      assert NicItems(items)[j].key == k;
    }
  }

  lemma NicItemsPrefix(items: seq<Item<NetworkInterface>>, n: nat)
    requires n <= |items|
    ensures NicItems(items)[..n] == NicItems(items[..n])
  {}

  // ---- rows: whose rows are written ----

  ghost function NodeAddressIds(t: Table<AddressOwner, string>, node: NodeId): set<Id> {
    set id | id in t.rows && t.rows[id].removedAt.None? && t.rows[id].owner.node == node
  }

  /** Rows of other nodes are not touched, and new rows belong to this node. */
  ghost predicate OnlyNode(a: NetTables, b: NetTables, node: NodeId) {
    && (forall id :: id in a.nics.rows && a.nics.rows[id].owner != node ==> id in b.nics.rows && b.nics.rows[id] == a.nics.rows[id])
    && (forall id :: id in a.addresses.rows && a.addresses.rows[id].owner.node != node ==>
          id in b.addresses.rows && b.addresses.rows[id] == a.addresses.rows[id])
    && (forall id :: id in b.nics.rows && id !in a.nics.rows ==> b.nics.rows[id].owner == node)
    && (forall id :: id in b.addresses.rows && id !in a.addresses.rows ==> b.addresses.rows[id].owner.node == node)
  }

  lemma SyncNicRows(nt: NetTables, node: NodeId, item: Item<NetworkInterface>, at: Instant)
    requires WfNet(nt) && NoOrphans(nt)
    ensures var r := SyncNic(nt, node, item, at);
      && NoOrphans(r) && OnlyNode(nt, r, node)
      && Extends(nt.nics, r.nics) && Extends(nt.addresses, r.addresses)
  {
    hide Active;
    var nic := Item(item.key, NicOf(item.attrs));
    UpsertView(nt.nics, node, nic, at);
    UpsertRows(nt.nics, node, nic, at);
    UpsertExtends(nt.nics, node, nic, at);
    var nics := Upsert(nt.nics, node, nic, at);
    ActiveAt(nics, node);
    var o := AddressOwner(node, Active(nics, node)[item.key].id);
    assert LiveNic(nics, o);
    var addresses := AddressItems(item.attrs.addresses);
    SyncExtends(nt.addresses, o, addresses, at);
    UpsertAllRows(nt.addresses, o, addresses, at);
    var u := UpsertAll(nt.addresses, o, addresses, at);
    var r := SyncNic(nt, node, item, at);
    assert r.nics == nics && r.addresses == Retire(u, o, KeysOf(addresses), at) == Sync(nt.addresses, o, addresses, at);
    hide SyncNic, Upsert, UpsertAll, Sync, Extends, Wf, Upserted, LiveNic, NoOrphans, OnlyNode, Retire;
    NicOrphans(nt, nics, node, {nic.key}, o, u, KeysOf(addresses), at);
    NicOnlyNode(nt, nics, node, {nic.key}, o, u, KeysOf(addresses), at);
  }

  lemma NicOrphans(nt: NetTables, nics: Table<NodeId, Nic>, node: NodeId, nicKeys: set<string>, o: AddressOwner,
                   u: Table<AddressOwner, string>, keys: set<string>, at: Instant)
    requires NoOrphans(nt) && LiveNic(nics, o)
    requires Upserted(nt.nics, nics, node, nicKeys, at) && Upserted(nt.addresses, u, o, keys, at)
    ensures NoOrphans(NetTables(nics, Retire(u, o, keys, at)))
  {
    var r := Retire(u, o, keys, at);
    forall id | id in r.rows && r.rows[id].removedAt.None? ensures LiveNic(nics, r.rows[id].owner) {
      if id in nt.addresses.rows {
        assert SameIdentity(nt.addresses.rows[id], u.rows[id]);
        assert LiveNic(nt.nics, nt.addresses.rows[id].owner);
      } else {
        assert IsActive(u.rows[id], o);
      }
    }
  }

  lemma NicOnlyNode(nt: NetTables, nics: Table<NodeId, Nic>, node: NodeId, nicKeys: set<string>, o: AddressOwner,
                    u: Table<AddressOwner, string>, keys: set<string>, at: Instant)
    requires o.node == node
    requires Upserted(nt.nics, nics, node, nicKeys, at) && Upserted(nt.addresses, u, o, keys, at)
    ensures OnlyNode(nt, NetTables(nics, Retire(u, o, keys, at)), node)
  {}

  lemma {:induction false} SyncNicsRows(nt: NetTables, node: NodeId, items: seq<Item<NetworkInterface>>, at: Instant)
    requires WfNet(nt) && NoOrphans(nt)
    ensures var r := SyncNics(nt, node, items, at);
      && NoOrphans(r) && OnlyNode(nt, r, node)
      && Extends(nt.nics, r.nics) && Extends(nt.addresses, r.addresses)
  {
    hide Active;
    if items != [] {
      var n := |items| - 1;
      var before := SyncNics(nt, node, items[..n], at);
      SyncNicsRows(nt, node, items[..n], at);
      SyncNicRows(before, node, items[n], at);
      var r := SyncNics(nt, node, items, at);
      ExtendsTransitive(nt.nics, before.nics, r.nics);
      ExtendsTransitive(nt.addresses, before.addresses, r.addresses);
    }
  }

  lemma CloseAddressesWf(nt: NetTables, node: NodeId, keys: set<string>, at: Instant)
    requires WfNet(nt)
    ensures Wf(Close(nt, node, keys, at).addresses)
  {
    var r := Close(nt, node, keys, at);
    forall i, j | i in r.addresses.rows && j in r.addresses.rows && BothActive(r.addresses.rows[i], r.addresses.rows[j])
      ensures i == j
    {
      assert BothActive(nt.addresses.rows[i], nt.addresses.rows[j]);
    }
  }

  lemma CloseRows(nt: NetTables, node: NodeId, keys: set<string>, at: Instant)
    requires WfNet(nt) && NoOrphans(nt)
    ensures var r := Close(nt, node, keys, at);
      && WfNet(r) && NoOrphans(r) && OnlyNode(nt, r, node)
      && Extends(nt.nics, r.nics) && Extends(nt.addresses, r.addresses)
  {
    hide Active;
    var r := Close(nt, node, keys, at);
    RetireView(nt.nics, node, keys, at);
    CloseAddressesWf(nt, node, keys, at);
    hide Wf, BothActive;
    CloseOrphans(nt, node, keys, at);
    hide NoOrphans, LiveNic;
  }

  lemma CloseOrphans(nt: NetTables, node: NodeId, keys: set<string>, at: Instant)
    requires NoOrphans(nt)
    ensures NoOrphans(Close(nt, node, keys, at))
  {
    var r := Close(nt, node, keys, at);
    forall id | id in r.addresses.rows && r.addresses.rows[id].removedAt.None?
      ensures LiveNic(r.nics, r.addresses.rows[id].owner)
    {
      assert LiveNic(nt.nics, nt.addresses.rows[id].owner);
    }
  }

  /**
   * Network history over a sync: no active address belongs to a removed interface, no row of either table is lost
   * or reopened, and other nodes keep their rows.
   */
  lemma SyncNetworkRows(nt: NetTables, node: NodeId, items: seq<Item<NetworkInterface>>, at: Instant)
    requires WfNet(nt) && NoOrphans(nt)
    ensures var r := SyncNetwork(nt, node, items, at);
      && WfNet(r) && NoOrphans(r) && OnlyNode(nt, r, node)
      && Extends(nt.nics, r.nics) && Extends(nt.addresses, r.addresses)
  {
    var synced, r := SyncNics(nt, node, items, at), SyncNetwork(nt, node, items, at);
    assert r == Close(synced, node, KeysOf(items), at);
    hide Active, SyncNics, SyncNetwork, Close;
    SyncNicsRows(nt, node, items, at);
    CloseRows(synced, node, KeysOf(items), at);
    ExtendsTransitive(nt.nics, synced.nics, r.nics);
    ExtendsTransitive(nt.addresses, synced.addresses, r.addresses);
  }

  // ---- the view ----

  lemma SyncNicAddresses(nt: NetTables, node: NodeId, item: Item<NetworkInterface>, at: Instant, other: Item<NetworkInterface>)
    requires WfNet(nt) && AddressesProjected(nt, node, other) && other.key != item.key
    ensures AddressesProjected(SyncNic(nt, node, item, at), node, other)
  {
    hide Active;
    SyncNicWf(nt, node, item, at);
    var nic := Item(item.key, NicOf(item.attrs));
    UpsertView(nt.nics, node, nic, at);
    ActiveAt(nt.nics, node);
    var nics := Upsert(nt.nics, node, nic, at);
    ActiveAt(nics, node);
    var id := Active(nics, node)[item.key].id;
    assert NicId(nt, node, other.key) == Active(nics, node)[other.key].id != id;
    SyncView(nt.addresses, AddressOwner(node, id), AddressItems(item.attrs.addresses), at);
  }

  lemma {:induction false} SyncNicsView(nt: NetTables, node: NodeId, items: seq<Item<NetworkInterface>>, at: Instant)
    requires WfNet(nt) && DistinctKeys(items)
    ensures SyncNics(nt, node, items, at).nics == UpsertAll(nt.nics, node, NicItems(items), at)
    ensures forall j :: 0 <= j < |items| ==> AddressesProjected(SyncNics(nt, node, items, at), node, items[j])
  {
    hide Active;
    if items != [] {
      var n := |items| - 1;
      var before := SyncNics(nt, node, items[..n], at);
      SyncNicsView(nt, node, items[..n], at);
      NicItemsPrefix(items, n);
      SyncNicWf(before, node, items[n], at);
      forall j | 0 <= j < |items| ensures AddressesProjected(SyncNics(nt, node, items, at), node, items[j]) {
        if j < n {
          assert items[..n][j] == items[j];
          SyncNicAddresses(before, node, items[n], at, items[j]);
        } else {
          var nic := Item(items[n].key, NicOf(items[n].attrs));
          UpsertView(before.nics, node, nic, at);
          var id := Active(Upsert(before.nics, node, nic, at), node)[items[n].key].id;
          SyncView(before.addresses, AddressOwner(node, id), AddressItems(items[n].attrs.addresses), at);
        }
      }
    }
  }

  lemma OrphansView(nt: NetTables, node: NodeId, at: Instant, o: AddressOwner)
    requires WfNet(nt) && (o.node != node || LiveNic(nt.nics, o))
    ensures Wf(RetireOrphans(nt, node, at))
    ensures Active(RetireOrphans(nt, node, at), o) == Active(nt.addresses, o)
  {
    hide Active;
    var r := RetireOrphans(nt, node, at);
    assert Wf(r) by {
      forall i, j | i in r.rows && j in r.rows && BothActive(r.rows[i], r.rows[j]) ensures i == j {
        assert BothActive(nt.addresses.rows[i], nt.addresses.rows[j]);
      }
    }
    ActiveAt(nt.addresses, o);
    ActiveIs(r, o, Active(nt.addresses, o));
  }

  /** After a sync the node's interfaces and addresses are exactly the reported ones. */
  lemma SyncNetworkProjects(nt: NetTables, node: NodeId, items: seq<Item<NetworkInterface>>, at: Instant)
    requires WfNet(nt) && NoOrphans(nt) && DistinctKeys(items)
    ensures ProjectsNet(SyncNetwork(nt, node, items, at), node, items)
    ensures forall j :: 0 <= j < |items| && items[j].key in Active(nt.nics, node) ==>
              NicId(SyncNetwork(nt, node, items, at), node, items[j].key) == NicId(nt, node, items[j].key)
  {
    hide Active;
    SyncNetworkRows(nt, node, items, at);
    SyncNicsView(nt, node, items, at);
    NicItemsKeys(items);
    SyncView(nt.nics, node, NicItems(items), at);
    var synced, r := SyncNics(nt, node, items, at), SyncNetwork(nt, node, items, at);
    assert r.nics == Sync(nt.nics, node, NicItems(items), at);
    RetireView(synced.nics, node, KeysOf(items), at);
    ActiveAt(r.nics, node);
    forall j | 0 <= j < |items| ensures AddressesProjected(r, node, items[j]) {
      assert items[j].key in KeysOf(items);
      var id := NicId(synced, node, items[j].key);
      assert Active(r.nics, node)[items[j].key].id == id;
      OrphansView(synced.(nics := r.nics), node, at, AddressOwner(node, id));
    }
    forall j | 0 <= j < |items| && items[j].key in Active(nt.nics, node)
      ensures NicId(r, node, items[j].key) == NicId(nt, node, items[j].key)
    {
      assert items[j].key in KeysOf(NicItems(items));
    }
  }

  /** Another node's projection survives a sync. */
  lemma SyncNetworkOthers(nt: NetTables, node: NodeId, items: seq<Item<NetworkInterface>>, at: Instant, other: NodeId,
                          theirs: seq<Item<NetworkInterface>>)
    requires WfNet(nt) && NoOrphans(nt) && other != node && ProjectsNet(nt, other, theirs)
    ensures ProjectsNet(SyncNetwork(nt, node, items, at), other, theirs)
  {
    hide Active;
    SyncNetworkRows(nt, node, items, at);
    var r := SyncNetwork(nt, node, items, at);
    SameRowsSameView(nt.nics, r.nics, other);
    forall j | 0 <= j < |theirs| ensures AddressesProjected(r, other, theirs[j]) {
      assert AddressesProjected(nt, other, theirs[j]);
      SameRowsSameView(nt.addresses, r.addresses, AddressOwner(other, NicId(nt, other, theirs[j].key)));
    }
  }

  lemma SameRowsSameView<O, T>(a: Table<O, T>, b: Table<O, T>, o: O)
    requires Wf(a) && Wf(b)
    requires forall id :: id in a.rows && a.rows[id].owner == o ==> id in b.rows && b.rows[id] == a.rows[id]
    requires forall id :: id in b.rows && b.rows[id].owner == o ==> id in a.rows && b.rows[id] == a.rows[id]
    ensures Active(b, o) == Active(a, o)
  {
    hide Active;
    ActiveAt(a, o);
    ActiveIs(b, o, Active(a, o));
  }

  // ---- the CHECK constraints ----

  lemma SyncNicStamped(nt: NetTables, node: NodeId, item: Item<NetworkInterface>, at: Instant)
    requires WfNet(nt)
    ensures var r := SyncNic(nt, node, item, at);
      && r.nics == Upsert(nt.nics, node, Item(item.key, NicOf(item.attrs)), at)
      && Wf(r.nics) && item.key in Active(r.nics, node)
      && Stamped(nt.addresses, r.addresses, ActiveRowIds(nt.addresses, AddressOwner(node, Active(r.nics, node)[item.key].id)), at)
  {
    hide Active;
    var nic := Item(item.key, NicOf(item.attrs));
    UpsertView(nt.nics, node, nic, at);
    var id := Active(Upsert(nt.nics, node, nic, at), node)[item.key].id;
    SyncStamped(nt.addresses, AddressOwner(node, id), AddressItems(item.attrs.addresses), at);
  }

  /** The key of the interface a live address hangs on. */
  ghost function NicKey(nt: NetTables, id: Id): string
    requires NoOrphans(nt) && id in nt.addresses.rows && nt.addresses.rows[id].removedAt.None?
  {
    assert LiveNic(nt.nics, nt.addresses.rows[id].owner);
    nt.nics.rows[nt.addresses.rows[id].owner.nic].key
  }

  /** The addresses of the interfaces synced so far are the address rows written. */
  lemma {:induction false} SyncNicsStamped(nt: NetTables, node: NodeId, items: seq<Item<NetworkInterface>>, at: Instant)
    returns (ids: set<Id>)
    requires WfNet(nt) && NoOrphans(nt) && DistinctKeys(items)
    ensures Stamped(nt.addresses, SyncNics(nt, node, items, at).addresses, ids, at)
    ensures ids <= NodeAddressIds(nt.addresses, node)
    ensures forall id :: id in NodeAddressIds(nt.addresses, node) && NicKey(nt, id) in KeysOf(items) ==> id in ids
  {
    hide Active;
    ids := {};
    if items != [] {
      var n := |items| - 1;
      var before := SyncNics(nt, node, items[..n], at);
      var earlier := SyncNicsStamped(nt, node, items[..n], at);
      var r := SyncNics(nt, node, items, at);
      assert r == SyncNic(before, node, items[n], at);
      hide SyncNics;
      SyncNicsRows(nt, node, items[..n], at);
      ids := SyncNicStampedMore(nt, before, node, items[n], at, earlier);
      KeysOfLast(items);
    }
  }

  lemma SyncNicStampedMore(nt: NetTables, before: NetTables, node: NodeId, item: Item<NetworkInterface>, at: Instant, earlier: set<Id>)
    returns (ids: set<Id>)
    requires WfNet(nt) && NoOrphans(nt) && WfNet(before) && NoOrphans(before)
    requires Extends(nt.nics, before.nics) && OnlyNode(nt, before, node)
    requires Stamped(nt.addresses, before.addresses, earlier, at) && earlier <= NodeAddressIds(nt.addresses, node)
    ensures earlier <= ids <= NodeAddressIds(nt.addresses, node)
    ensures Stamped(nt.addresses, SyncNic(before, node, item, at).addresses, ids, at)
    ensures forall id :: id in NodeAddressIds(nt.addresses, node) && NicKey(nt, id) == item.key ==> id in ids
  {
    hide Active;
    SyncNicStamped(before, node, item, at);
    var r := SyncNic(before, node, item, at);
    var nic := Item(item.key, NicOf(item.attrs));
    assert r.nics == Upsert(before.nics, node, nic, at);
    hide SyncNic;
    var o := AddressOwner(node, Active(r.nics, node)[item.key].id);
    var now := ActiveRowIds(before.addresses, o);
    StampedCompose(nt.addresses, before.addresses, r.addresses, earlier, now, at);
    ids := earlier + now * nt.addresses.rows.Keys;
    forall id | id in nt.addresses.rows && id !in earlier ensures before.addresses.rows[id] == nt.addresses.rows[id] {}
    hide Stamped;
    forall id | id in NodeAddressIds(nt.addresses, node) && NicKey(nt, id) == item.key ensures id in ids {
      if id !in earlier {
        assert before.addresses.rows[id] == nt.addresses.rows[id];
        UpsertKeepsNic(nt, before, node, nic, at, id);
      }
    }
  }

  lemma UpsertKeepsNic(nt: NetTables, before: NetTables, node: NodeId, nic: Item<Nic>, at: Instant, id: Id)
    requires WfNet(nt) && NoOrphans(nt) && WfNet(before) && NoOrphans(before)
    requires Extends(nt.nics, before.nics)
    requires id in NodeAddressIds(nt.addresses, node) && NicKey(nt, id) == nic.key
    requires id in before.addresses.rows && before.addresses.rows[id] == nt.addresses.rows[id]
    ensures Wf(Upsert(before.nics, node, nic, at)) && nic.key in Active(Upsert(before.nics, node, nic, at), node)
    ensures nt.addresses.rows[id].owner == AddressOwner(node, Active(Upsert(before.nics, node, nic, at), node)[nic.key].id)
  {
    hide Active;
    UpsertView(before.nics, node, nic, at);
    UpsertRows(before.nics, node, nic, at);
    var nics := Upsert(before.nics, node, nic, at);
    hide Upsert;
    ActiveAt(nics, node);
    var owner := nt.addresses.rows[id].owner;
    assert LiveNic(nt.nics, owner) && LiveNic(before.nics, owner);
    assert SameIdentity(nt.nics.rows[owner.nic], before.nics.rows[owner.nic]);
    assert SameIdentity(before.nics.rows[owner.nic], nics.rows[owner.nic]);
    assert IsActive(nics.rows[owner.nic], node);
  }

  /** A network sync writes exactly the node's active interface rows and active address rows. */
  lemma SyncNetworkStamped(nt: NetTables, node: NodeId, items: seq<Item<NetworkInterface>>, at: Instant)
    requires WfNet(nt) && NoOrphans(nt) && DistinctKeys(items)
    ensures var r := SyncNetwork(nt, node, items, at);
      && Stamped(nt.nics, r.nics, ActiveRowIds(nt.nics, node), at)
      && Stamped(nt.addresses, r.addresses, NodeAddressIds(nt.addresses, node), at)
  {
    hide Active;
    var synced, r := SyncNics(nt, node, items, at), SyncNetwork(nt, node, items, at);
    assert r == Close(synced, node, KeysOf(items), at);
    SyncNicsView(nt, node, items, at);
    NicItemsKeys(items);
    SyncStamped(nt.nics, node, NicItems(items), at);
    UpsertAllRows(nt.nics, node, NicItems(items), at);
    assert r.nics == Sync(nt.nics, node, NicItems(items), at);
    hide SyncNics, SyncNetwork, Sync, UpsertAll;
    SyncNicsRows(nt, node, items, at);
    var ids := SyncNicsStamped(nt, node, items, at);
    CloseStamped(nt, synced, node, KeysOf(items), at, ids);
  }

  lemma CloseStamped(nt: NetTables, synced: NetTables, node: NodeId, keys: set<string>, at: Instant, ids: set<Id>)
    requires NoOrphans(nt) && NoOrphans(synced)
    requires Stamped(nt.addresses, synced.addresses, ids, at) && ids <= NodeAddressIds(nt.addresses, node)
    requires forall id :: id in NodeAddressIds(nt.addresses, node) && NicKey(nt, id) in keys ==> id in ids
    requires forall id :: id in nt.nics.rows && IsActive(nt.nics.rows[id], node) ==>
               id in synced.nics.rows && IsActiveKey(synced.nics.rows[id], node, nt.nics.rows[id].key)
    ensures Stamped(nt.addresses, Close(synced, node, keys, at).addresses, NodeAddressIds(nt.addresses, node), at)
  {
    var r := Close(synced, node, keys, at);
    forall id | id in NodeAddressIds(nt.addresses, node)
      ensures id in r.addresses.rows && SameIdentity(nt.addresses.rows[id], r.addresses.rows[id])
              && Written(nt.addresses.rows[id], r.addresses.rows[id], at)
    {
      var a := nt.addresses.rows[id];
      assert LiveNic(nt.nics, a.owner);
      if id in ids {
        assert Written(a, synced.addresses.rows[id], at);
      } else {
        assert synced.addresses.rows[id] == a;
        assert NicKey(nt, id) !in keys;
        assert IsActiveKey(synced.nics.rows[a.owner.nic], node, NicKey(nt, id));
        assert r.nics.rows[a.owner.nic].removedAt == Some(at);
      }
    }
    forall id | id in r.addresses.rows && id !in nt.addresses.rows ensures FirstWritten(r.addresses.rows[id], at) {
      assert FirstWritten(synced.addresses.rows[id], at);
    }
    forall id | id in nt.addresses.rows && id !in NodeAddressIds(nt.addresses, node)
      ensures id in r.addresses.rows && r.addresses.rows[id] == nt.addresses.rows[id]
    {
      assert synced.addresses.rows[id] == nt.addresses.rows[id];
    }
  }

  // ---- skipping the sync ----

  ghost predicate NetSameButLastSeen(a: NetTables, b: NetTables) {
    SameButLastSeen(a.nics, b.nics) && SameButLastSeen(a.addresses, b.addresses)
  }

  lemma SyncNicAlike(a: NetTables, b: NetTables, node: NodeId, item: Item<NetworkInterface>, at: Instant)
    requires NetSameButLastSeen(a, b) && WfNet(a) && WfNet(b)
    ensures NetSameButLastSeen(SyncNic(a, node, item, at), SyncNic(b, node, item, at))
  {
    hide Active;
    var nic := Item(item.key, NicOf(item.attrs));
    UpsertAlike(a.nics, b.nics, node, nic, at);
    UpsertView(a.nics, node, nic, at);
    UpsertView(b.nics, node, nic, at);
    SameView(Upsert(a.nics, node, nic, at), Upsert(b.nics, node, nic, at), node);
    var id := Active(Upsert(a.nics, node, nic, at), node)[item.key].id;
    SyncAlike(a.addresses, b.addresses, AddressOwner(node, id), AddressItems(item.attrs.addresses), at);
  }

  lemma {:induction false} SyncNicsAlike(a: NetTables, b: NetTables, node: NodeId, items: seq<Item<NetworkInterface>>, at: Instant)
    requires NetSameButLastSeen(a, b) && WfNet(a) && WfNet(b)
    ensures NetSameButLastSeen(SyncNics(a, node, items, at), SyncNics(b, node, items, at))
  {
    if items != [] {
      var n := |items| - 1;
      SyncNicsAlike(a, b, node, items[..n], at);
      SyncNicAlike(SyncNics(a, node, items[..n], at), SyncNics(b, node, items[..n], at), node, items[n], at);
    }
  }

  lemma SyncNetworkAlike(a: NetTables, b: NetTables, node: NodeId, items: seq<Item<NetworkInterface>>, at: Instant)
    requires NetSameButLastSeen(a, b) && WfNet(a) && WfNet(b)
    ensures NetSameButLastSeen(SyncNetwork(a, node, items, at), SyncNetwork(b, node, items, at))
  {
    SyncNicsAlike(a, b, node, items, at);
    hide SyncNics, Close, NetSameButLastSeen;
    CloseAlike(SyncNics(a, node, items, at), SyncNics(b, node, items, at), node, KeysOf(items), at);
  }

  lemma CloseAlike(a: NetTables, b: NetTables, node: NodeId, keys: set<string>, at: Instant)
    requires NetSameButLastSeen(a, b)
    ensures NetSameButLastSeen(Close(a, node, keys, at), Close(b, node, keys, at))
  {}

  lemma SameButLastSeenTransitive<O, T>(a: Table<O, T>, b: Table<O, T>, c: Table<O, T>)
    requires SameButLastSeen(a, b) && SameButLastSeen(b, c)
    ensures SameButLastSeen(a, c)
  {
    forall id | id in a.rows ensures c.rows[id] == a.rows[id].(lastSeen := c.rows[id].lastSeen) {
      assert b.rows[id] == a.rows[id].(lastSeen := b.rows[id].lastSeen);
    }
  }

  lemma ProjectsNetAlike(a: NetTables, b: NetTables, node: NodeId, items: seq<Item<NetworkInterface>>)
    requires NetSameButLastSeen(a, b) && ProjectsNet(a, node, items)
    ensures ProjectsNet(b, node, items)
  {
    hide Active;
    SameView(a.nics, b.nics, node);
    forall j | 0 <= j < |items| ensures AddressesProjected(b, node, items[j]) {
      assert AddressesProjected(a, node, items[j]);
      SameView(a.addresses, b.addresses, AddressOwner(node, NicId(a, node, items[j].key)));
    }
  }

  lemma SyncNicOfProjected(nt: NetTables, node: NodeId, items: seq<Item<NetworkInterface>>, j: int, at: Instant)
    requires ProjectsNet(nt, node, items) && DistinctKeys(items) && 0 <= j < |items|
    ensures NetSameButLastSeen(nt, SyncNic(nt, node, items[j], at))
  {
    hide Active;
    var nic := Item(items[j].key, NicOf(items[j].attrs));
    NicItemsKeys(items);
    LastWinsAt(NicItems(items), j);
    assert AddressesProjected(nt, node, items[j]);
    assert Attrs(Active(nt.nics, node))[nic.key] == nic.attrs;
    UpsertOfProjected(nt.nics, node, nic, at);
    UpsertView(nt.nics, node, nic, at);
    SyncOfProjected(nt.addresses, AddressOwner(node, NicId(nt, node, nic.key)), AddressItems(items[j].attrs.addresses), at);
  }

  lemma {:induction false} SyncNicsOfProjected(nt: NetTables, node: NodeId, items: seq<Item<NetworkInterface>>, n: nat, at: Instant)
    requires ProjectsNet(nt, node, items) && DistinctKeys(items) && n <= |items|
    ensures NetSameButLastSeen(nt, SyncNics(nt, node, items[..n], at))
  {
    hide Active;
    if n > 0 {
      SyncNicsOfProjected(nt, node, items, n - 1, at);
      assert items[..n][..n - 1] == items[..n - 1];
      var before := SyncNics(nt, node, items[..n - 1], at);
      ProjectsNetAlike(nt, before, node, items);
      SyncNicOfProjected(before, node, items, n - 1, at);
      var r := SyncNics(nt, node, items[..n], at);
      SameButLastSeenTransitive(nt.nics, before.nics, r.nics);
      SameButLastSeenTransitive(nt.addresses, before.addresses, r.addresses);
    }
  }

  /** Syncing the network part the tables already project changes nothing but last-seen times. */
  lemma SyncNetworkOfProjected(nt: NetTables, node: NodeId, items: seq<Item<NetworkInterface>>, at: Instant)
    requires ProjectsNet(nt, node, items) && DistinctKeys(items) && NoOrphans(nt)
    ensures NetSameButLastSeen(nt, SyncNetwork(nt, node, items, at))
  {
    hide Active;
    assert items[..|items|] == items;
    SyncNicsOfProjected(nt, node, items, |items|, at);
    var synced := SyncNics(nt, node, items, at);
    assert SyncNetwork(nt, node, items, at) == Close(synced, node, KeysOf(items), at);
    hide SyncNics, SyncNetwork;
    NicItemsKeys(items);
    assert Active(nt.nics, node).Keys == Attrs(Active(nt.nics, node)).Keys == KeysOf(items);
    SameView(nt.nics, synced.nics, node);
    CloseOfProjected(nt, synced, node, KeysOf(items), at);
  }

  lemma CloseOfProjected(nt: NetTables, synced: NetTables, node: NodeId, keys: set<string>, at: Instant)
    requires WfNet(nt) && NoOrphans(nt) && NetSameButLastSeen(nt, synced)
    requires Active(nt.nics, node).Keys == keys
    ensures Close(synced, node, keys, at) == synced
  {
    hide Active;
    SameView(nt.nics, synced.nics, node);
    ActiveAt(synced.nics, node);
    assert Retire(synced.nics, node, keys, at) == synced.nics;
    forall id | id in synced.addresses.rows && synced.addresses.rows[id].removedAt.None?
      ensures LiveNic(synced.nics, synced.addresses.rows[id].owner)
    {
      assert LiveNic(nt.nics, nt.addresses.rows[id].owner);
    }
    assert RetireOrphans(synced, node, at) == synced.addresses;
  }
}
