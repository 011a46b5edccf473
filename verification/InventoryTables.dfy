/**
 * An inventory table and its synchronisation (internal/store/ingest.go).
 *
 * `syncCPUPackages`, `syncMemoryModules`, `syncBlockDevices`, `syncFilesystems` and `syncGPUs` are the same
 * statements on different columns, so they are one operation here, for any column type `T`. The owner is the
 * node, or the interface of a node for the address table.
 */
module InventoryTables {
  import opened Text
  import opened Clock
  import opened Reports
  import opened Inventories

  type Id = nat

  datatype Row<O, T> = Row(
    owner: O, key: string, attrs: T, firstSeen: Instant, lastSeen: Instant, removedAt: Option<Instant>)

  /** `next` stands for the supply of fresh uuids. */
  datatype Table<O, T> = Table(rows: map<Id, Row<O, T>>, next: Id)

  datatype Entry<T> = Entry(id: Id, attrs: T)

  predicate IsActive<O(==), T>(r: Row<O, T>, o: O) {
    r.owner == o && r.removedAt.None?
  }

  predicate IsActiveKey<O(==), T>(r: Row<O, T>, o: O, k: string) {
    IsActive(r, o) && r.key == k
  }

  /** Two rows the active-row unique index forbids to coexist. */
  ghost predicate BothActive<O, T>(a: Row<O, T>, b: Row<O, T>) {
    a.removedAt.None? && b.removedAt.None? && a.owner == b.owner && a.key == b.key
  }

  /** Ids come from the supply, and the active-row unique index holds. */
  ghost predicate Wf<O, T>(t: Table<O, T>) {
    && (forall id :: id in t.rows ==> id < t.next)
    && (forall i, j :: i in t.rows && j in t.rows && BothActive(t.rows[i], t.rows[j]) ==> i == j)
  }

  /** The active rows of an owner by key: what the `active*IDs` queries return. */
  ghost function Active<O, T>(t: Table<O, T>, o: O): (view: map<string, Entry<T>>)
    requires Wf(t)
  {
    map id | id in t.rows && IsActive(t.rows[id], o) :: t.rows[id].key := Entry(id, t.rows[id].attrs)
  }

  ghost function Attrs<T>(view: map<string, Entry<T>>): map<string, T> {
    map k | k in view :: view[k].attrs
  }

  ghost predicate Projects<O, T>(t: Table<O, T>, o: O, items: seq<Item<T>>) {
    Wf(t) && Attrs(Active(t, o)) == LastWins(items)
  }

  // ---- the statements ----

  function Update<O(==), T>(t: Table<O, T>, o: O, item: Item<T>, at: Instant): Table<O, T> {
    t.(rows := map id | id in t.rows ::
      if IsActiveKey(t.rows[id], o, item.key) then t.rows[id].(attrs := item.attrs, lastSeen := at) else t.rows[id])
  }

  predicate Affected<O(==), T>(t: Table<O, T>, o: O, k: string) {
    exists id :: id in t.rows && IsActiveKey(t.rows[id], o, k)
  }

  function InsertRow<O, T>(t: Table<O, T>, o: O, item: Item<T>, at: Instant): Table<O, T> {
    Table(t.rows[t.next := Row(o, item.key, item.attrs, at, at, None)], t.next + 1)
  }

  function Upsert<O(==), T>(t: Table<O, T>, o: O, item: Item<T>, at: Instant): Table<O, T> {
    if Affected(t, o, item.key) then Update(t, o, item, at) else InsertRow(t, o, item, at)
  }

  function UpsertAll<O(==), T>(t: Table<O, T>, o: O, items: seq<Item<T>>, at: Instant): Table<O, T> {
    if items == [] then t
    else
      var n := |items| - 1;
      Upsert(UpsertAll(t, o, items[..n], at), o, items[n], at)
  }

  function Retire<O(==), T>(t: Table<O, T>, o: O, keys: set<string>, at: Instant): Table<O, T> {
    t.(rows := map id | id in t.rows ::
      if IsActive(t.rows[id], o) && t.rows[id].key !in keys then t.rows[id].(removedAt := Some(at)) else t.rows[id])
  }

  ghost function Sync<O, T>(t: Table<O, T>, o: O, items: seq<Item<T>>, at: Instant): Table<O, T> {
    Retire(UpsertAll(t, o, items, at), o, KeysOf(items), at)
  }

  /** One per-table sync: update or insert each item, then close the rows whose key was not reported. */
  method SyncTable<O(==), T>(t: Table<O, T>, o: O, items: seq<Item<T>>, at: Instant) returns (r: Table<O, T>)
    ensures r == Sync(t, o, items, at)
  {
    r := t;
    var keys: set<string> := {};
    for i := 0 to |items|
      invariant r == UpsertAll(t, o, items[..i], at)
      invariant keys == KeysOf(items[..i])
    {
      keys := keys + {items[i].key};
      assert items[..i + 1][..i] == items[..i];
      assert KeysOf(items[..i + 1]) == KeysOf(items[..i]) + {items[i].key} by {
        forall k | k in KeysOf(items[..i]) ensures k in KeysOf(items[..i + 1]) {
          var j :| 0 <= j < i && items[..i][j].key == k;
          assert items[..i + 1][j].key == k;
        }
        assert items[..i + 1][i] == items[i];
      }
      if Affected(r, o, items[i].key) {
        r := Update(r, o, items[i], at);
      } else {
        r := InsertRow(r, o, items[i], at);
      }
    }
    assert items[..|items|] == items;
    r := Retire(r, o, keys, at);
  }

  /** The scan of `active*IDs`: one map entry per active row. */
  method ActiveIds<O(==), T>(t: Table<O, T>, o: O) returns (ids: map<string, Entry<T>>)
    requires Wf(t)
    ensures ids == Active(t, o)
  {
    hide Active;
    ids := map[];
    var left := t.rows.Keys;
    while left != {}
      invariant left <= t.rows.Keys
      invariant forall k :: k in ids <==> exists id :: id in t.rows && id !in left && IsActiveKey(t.rows[id], o, k)
      invariant forall k :: k in ids ==> Backed(t, o, k, ids[k])
      decreases left
    {
      var id :| id in left;
      left := left - {id};
      if IsActive(t.rows[id], o) {
        ids := ids[t.rows[id].key := Entry(id, t.rows[id].attrs)];
      }
    }
    forall id | id in t.rows && IsActive(t.rows[id], o) ensures t.rows[id].key in ids {
      assert IsActiveKey(t.rows[id], o, t.rows[id].key);
    }
    ActiveIs(t, o, ids);
  }

  // ---- what the view says ----

  /** The entry is an active row of the owner under the key. */
  ghost predicate Backed<O, T>(t: Table<O, T>, o: O, k: string, e: Entry<T>) {
    e.id in t.rows && IsActiveKey(t.rows[e.id], o, k) && e.attrs == t.rows[e.id].attrs
  }

  lemma ActiveAt<O, T>(t: Table<O, T>, o: O)
    requires Wf(t)
    ensures forall k :: k in Active(t, o) ==> Backed(t, o, k, Active(t, o)[k])
    ensures forall id :: id in t.rows && IsActive(t.rows[id], o) ==>
              t.rows[id].key in Active(t, o) && Active(t, o)[t.rows[id].key] == Entry(id, t.rows[id].attrs)
  {}

  /** An active view is determined by its rows. */
  lemma ActiveIs<O, T>(t: Table<O, T>, o: O, view: map<string, Entry<T>>)
    requires Wf(t)
    requires forall k :: k in view ==> Backed(t, o, k, view[k])
    requires forall id :: id in t.rows && IsActive(t.rows[id], o) ==> t.rows[id].key in view
    ensures Active(t, o) == view
  {
    ActiveAt(t, o);
    assert Active(t, o).Keys == view.Keys;
  }

  lemma UpsertView<O, T>(t: Table<O, T>, o: O, item: Item<T>, at: Instant)
    requires Wf(t)
    ensures Wf(Upsert(t, o, item, at))
    ensures Active(Upsert(t, o, item, at), o)
            == Active(t, o)[item.key := Entry(if item.key in Active(t, o) then Active(t, o)[item.key].id else t.next, item.attrs)]
  {
    hide Active;
    var r := Upsert(t, o, item, at);
    ActiveAt(t, o);
    var view := Active(t, o)[item.key := Entry(if item.key in Active(t, o) then Active(t, o)[item.key].id else t.next, item.attrs)];
    assert Affected(t, o, item.key) <==> item.key in Active(t, o);
    ActiveIs(r, o, view);
  }

  lemma UpsertOthers<O, T>(t: Table<O, T>, o: O, item: Item<T>, at: Instant, o': O)
    requires Wf(t) && o' != o
    ensures Wf(Upsert(t, o, item, at))
    ensures Active(Upsert(t, o, item, at), o') == Active(t, o')
  {
    hide Active;
    UpsertView(t, o, item, at);
    ActiveAt(t, o');
    ActiveIs(Upsert(t, o, item, at), o', Active(t, o'));
  }

  lemma RetireView<O, T>(t: Table<O, T>, o: O, keys: set<string>, at: Instant)
    requires Wf(t)
    ensures Wf(Retire(t, o, keys, at))
    ensures Active(Retire(t, o, keys, at), o) == map k | k in Active(t, o) && k in keys :: Active(t, o)[k]
    ensures forall o' :: o' != o ==> Active(Retire(t, o, keys, at), o') == Active(t, o')
  {
    hide Active;
    var r := Retire(t, o, keys, at);
    ActiveAt(t, o);
    ActiveIs(r, o, map k | k in Active(t, o) && k in keys :: Active(t, o)[k]);
    forall o' | o' != o ensures Active(r, o') == Active(t, o') {
      ActiveAt(t, o');
      ActiveIs(r, o', Active(t, o'));
    }
  }

  /** After the upserts: reported keys carry the last reported columns, known keys keep their id, new ones are fresh. */
  lemma {:induction false} UpsertAllView<O, T>(t: Table<O, T>, o: O, items: seq<Item<T>>, at: Instant)
    requires Wf(t)
    ensures var r := UpsertAll(t, o, items, at);
      && Wf(r) && r.next >= t.next
      && Active(r, o).Keys == Active(t, o).Keys + KeysOf(items)
      && (forall k :: k in KeysOf(items) ==> Active(r, o)[k].attrs == LastWins(items)[k])
      && (forall k :: k in Active(t, o) ==> Active(r, o)[k].id == Active(t, o)[k].id)
      && (forall k :: k in Active(t, o) && k !in KeysOf(items) ==> Active(r, o)[k] == Active(t, o)[k])
      && (forall k :: k in KeysOf(items) && k !in Active(t, o) ==> t.next <= Active(r, o)[k].id)
      && (forall o' :: o' != o ==> Active(r, o') == Active(t, o'))
  {
    hide Active;
    if items != [] {
      var n := |items| - 1;
      UpsertAllView(t, o, items[..n], at);
      var before := UpsertAll(t, o, items[..n], at);
      UpsertView(before, o, items[n], at);
      KeysOfLast(items);
      forall o' | o' != o ensures Active(UpsertAll(t, o, items, at), o') == Active(t, o') {
        UpsertOthers(before, o, items[n], at, o');
      }
    }
  }

  lemma KeysOfLast<T>(items: seq<Item<T>>)
    requires items != []
    ensures KeysOf(items) == KeysOf(items[..|items| - 1]) + {items[|items| - 1].key}
  {
    var n := |items| - 1;
    forall k | k in KeysOf(items) ensures k in KeysOf(items[..n]) + {items[n].key} {
      var j :| 0 <= j < |items| && items[j].key == k;
      if j < n {
        assert items[..n][j].key == k;
      }
    }
    forall k | k in KeysOf(items[..n]) ensures k in KeysOf(items) {
      var j :| 0 <= j < n && items[..n][j].key == k;
      assert items[j].key == k;
    }
  }

  /**
   * After a sync the active keys are exactly the reported keys, with the reported columns; a key that was active
   * keeps its row, a returning or new key gets a row that never existed, and nobody else's rows are concerned.
   */
  lemma SyncView<O, T>(t: Table<O, T>, o: O, items: seq<Item<T>>, at: Instant)
    requires Wf(t)
    ensures var r := Sync(t, o, items, at);
      && Projects(r, o, items) && r.next >= t.next
      && Active(r, o).Keys == KeysOf(items)
      && (forall k :: k in KeysOf(items) && k in Active(t, o) ==> Active(r, o)[k].id == Active(t, o)[k].id)
      && (forall k :: k in KeysOf(items) && k !in Active(t, o) ==> t.next <= Active(r, o)[k].id)
      && (forall o' :: o' != o ==> Active(r, o') == Active(t, o'))
  {
    hide Active;
    UpsertAllView(t, o, items, at);
    RetireView(UpsertAll(t, o, items, at), o, KeysOf(items), at);
  }

  // ---- history: nothing is lost, closed rows stay as they are ----

  ghost predicate SameIdentity<O, T>(a: Row<O, T>, b: Row<O, T>) {
    a.owner == b.owner && a.key == b.key && a.firstSeen == b.firstSeen
  }

  ghost predicate Extends<O, T>(t: Table<O, T>, r: Table<O, T>) {
    && t.next <= r.next
    && (forall id :: id in t.rows ==> id in r.rows && SameIdentity(t.rows[id], r.rows[id]))
    && (forall id :: id in t.rows && t.rows[id].removedAt.Some? ==> r.rows[id] == t.rows[id])
    && (forall id :: id in r.rows && id !in t.rows ==> t.next <= id)
  }

  lemma ExtendsTransitive<O, T>(a: Table<O, T>, b: Table<O, T>, c: Table<O, T>)
    requires Extends(a, b) && Extends(b, c)
    ensures Extends(a, c)
  {
    forall id | id in a.rows ensures id in c.rows && SameIdentity(a.rows[id], c.rows[id]) {
      assert id in b.rows && SameIdentity(a.rows[id], b.rows[id]) && SameIdentity(b.rows[id], c.rows[id]);
    }
  }

  lemma UpsertExtends<O, T>(t: Table<O, T>, o: O, item: Item<T>, at: Instant)
    requires Wf(t)
    ensures Extends(t, Upsert(t, o, item, at))
  {}

  lemma {:induction false} UpsertAllExtends<O, T>(t: Table<O, T>, o: O, items: seq<Item<T>>, at: Instant)
    requires Wf(t)
    ensures Wf(UpsertAll(t, o, items, at)) && Extends(t, UpsertAll(t, o, items, at))
  {
    UpsertAllView(t, o, items, at);
    if items != [] {
      var n := |items| - 1;
      UpsertAllExtends(t, o, items[..n], at);
      UpsertExtends(UpsertAll(t, o, items[..n], at), o, items[n], at);
    }
  }

  /** No row disappears, closed rows never change again, and every new row has an id no row ever had. */
  lemma SyncExtends<O, T>(t: Table<O, T>, o: O, items: seq<Item<T>>, at: Instant)
    requires Wf(t)
    ensures Wf(Sync(t, o, items, at)) && Extends(t, Sync(t, o, items, at))
  {
    UpsertAllExtends(t, o, items, at);
    RetireView(UpsertAll(t, o, items, at), o, KeysOf(items), at);
  }

  // ---- the CHECK constraints on the seen and removed times ----

  ghost predicate RowChecked<O, T>(r: Row<O, T>) {
    r.firstSeen <= r.lastSeen && (r.removedAt.Some? ==> r.firstSeen <= r.removedAt.value)
  }

  ghost predicate RowsChecked<O, T>(t: Table<O, T>) {
    forall id :: id in t.rows ==> RowChecked(t.rows[id])
  }

  /** What an upsert of these keys at this instant does to the rows. */
  ghost predicate Upserted<O, T>(t: Table<O, T>, r: Table<O, T>, o: O, keys: set<string>, at: Instant) {
    && (forall id :: id in t.rows ==>
          id in r.rows && SameIdentity(t.rows[id], r.rows[id]) && r.rows[id].removedAt == t.rows[id].removedAt)
    && (forall id :: id in t.rows && IsActive(t.rows[id], o) && t.rows[id].key in keys ==> r.rows[id].lastSeen == at)
    && (forall id :: id in t.rows && !(IsActive(t.rows[id], o) && t.rows[id].key in keys) ==> r.rows[id] == t.rows[id])
    && (forall id :: id in r.rows && id !in t.rows ==>
          IsActive(r.rows[id], o) && r.rows[id].key in keys && r.rows[id].firstSeen == r.rows[id].lastSeen == at)
  }

  lemma UpsertRows<O, T>(t: Table<O, T>, o: O, item: Item<T>, at: Instant)
    requires Wf(t)
    ensures Upserted(t, Upsert(t, o, item, at), o, {item.key}, at)
  {}

  lemma UpsertedCompose<O, T>(a: Table<O, T>, b: Table<O, T>, c: Table<O, T>, o: O, ks: set<string>, ls: set<string>, at: Instant)
    requires Upserted(a, b, o, ks, at) && Upserted(b, c, o, ls, at)
    ensures Upserted(a, c, o, ks + ls, at)
  {
    forall id | id in c.rows && id !in a.rows
      ensures IsActive(c.rows[id], o) && c.rows[id].key in ks + ls && c.rows[id].firstSeen == c.rows[id].lastSeen == at
    {
      if id in b.rows {
        assert IsActive(b.rows[id], o);
      }
    }
  }

  lemma {:induction false} UpsertAllRows<O, T>(t: Table<O, T>, o: O, items: seq<Item<T>>, at: Instant)
    requires Wf(t)
    ensures Wf(UpsertAll(t, o, items, at)) && Upserted(t, UpsertAll(t, o, items, at), o, KeysOf(items), at)
  {
    hide Active;
    UpsertAllView(t, o, items, at);
    if items != [] {
      var n := |items| - 1;
      var before := UpsertAll(t, o, items[..n], at);
      UpsertAllRows(t, o, items[..n], at);
      UpsertRows(before, o, items[n], at);
      KeysOfLast(items);
      UpsertedCompose(t, before, UpsertAll(t, o, items, at), o, KeysOf(items[..n]), {items[n].key}, at);
    }
  }

  /** What statements running at one instant leave: `ids` are the old rows they wrote, everything else is new or untouched. */
  ghost predicate Stamped<O, T>(t: Table<O, T>, r: Table<O, T>, ids: set<Id>, at: Instant) {
    && ids <= t.rows.Keys
    && (forall id :: id in ids ==> id in r.rows && SameIdentity(t.rows[id], r.rows[id]) && Written(t.rows[id], r.rows[id], at))
    && (forall id :: id in t.rows && id !in ids ==> id in r.rows && r.rows[id] == t.rows[id])
    && (forall id :: id in r.rows && id !in t.rows ==> FirstWritten(r.rows[id], at))
  }

  ghost predicate Written<O, T>(a: Row<O, T>, b: Row<O, T>, at: Instant) {
    && (b.lastSeen == at || b.removedAt == Some(at))
    && (b.lastSeen == at || b.lastSeen == a.lastSeen)
    && (b.removedAt == Some(at) || b.removedAt == a.removedAt)
  }

  ghost predicate FirstWritten<O, T>(r: Row<O, T>, at: Instant) {
    r.firstSeen == r.lastSeen == at && (r.removedAt.None? || r.removedAt == Some(at))
  }

  lemma StampedCompose<O, T>(a: Table<O, T>, b: Table<O, T>, c: Table<O, T>, ids: set<Id>, more: set<Id>, at: Instant)
    requires Stamped(a, b, ids, at) && Stamped(b, c, more, at)
    ensures Stamped(a, c, ids + (more * a.rows.Keys), at)
  {
    var all := ids + (more * a.rows.Keys);
    forall id | id in all
      ensures id in c.rows && SameIdentity(a.rows[id], c.rows[id]) && Written(a.rows[id], c.rows[id], at)
    {
      assert id in b.rows;
    }
    forall id | id in c.rows && id !in a.rows ensures FirstWritten(c.rows[id], at) {
      if id in b.rows {
        assert FirstWritten(b.rows[id], at);
      }
    }
  }

  /** PostgreSQL accepts such writes exactly when no row written was first seen later than the instant. */
  lemma StampedCheckedIff<O, T>(t: Table<O, T>, r: Table<O, T>, ids: set<Id>, at: Instant)
    requires Stamped(t, r, ids, at) && RowsChecked(t)
    ensures RowsChecked(r) <==> forall id :: id in ids ==> t.rows[id].firstSeen <= at
  {
    if RowsChecked(r) {
      forall id | id in ids ensures t.rows[id].firstSeen <= at {
        assert RowChecked(r.rows[id]) && Written(t.rows[id], r.rows[id], at);
      }
    }
    if forall id :: id in ids ==> t.rows[id].firstSeen <= at {
      forall id | id in r.rows ensures RowChecked(r.rows[id]) {
        if id in t.rows {
          assert RowChecked(t.rows[id]);
        }
      }
    }
  }

  ghost function ActiveRowIds<O, T>(t: Table<O, T>, o: O): set<Id> {
    set id | id in t.rows && IsActive(t.rows[id], o)
  }

  /** A sync writes exactly the active rows of its owner, and adds rows. */
  lemma SyncStamped<O, T>(t: Table<O, T>, o: O, items: seq<Item<T>>, at: Instant)
    requires Wf(t)
    ensures Stamped(t, Sync(t, o, items, at), ActiveRowIds(t, o), at)
  {
    hide Active;
    UpsertAllRows(t, o, items, at);
    var u, r := UpsertAll(t, o, items, at), Sync(t, o, items, at);
    forall id | id in ActiveRowIds(t, o)
      ensures id in r.rows && SameIdentity(t.rows[id], r.rows[id]) && Written(t.rows[id], r.rows[id], at)
    {
      assert id in u.rows && SameIdentity(t.rows[id], u.rows[id]);
    }
    forall id | id in r.rows && id !in t.rows ensures FirstWritten(r.rows[id], at) {
      assert id in u.rows;
    }
  }

  // ---- equality up to the last-seen time ----

  ghost predicate SameButLastSeen<O, T>(a: Table<O, T>, b: Table<O, T>) {
    && a.next == b.next && a.rows.Keys == b.rows.Keys
    && (forall id :: id in a.rows ==> b.rows[id] == a.rows[id].(lastSeen := b.rows[id].lastSeen))
  }

  lemma SameView<O, T>(a: Table<O, T>, b: Table<O, T>, o: O)
    requires SameButLastSeen(a, b) && Wf(a)
    ensures Wf(b) && Active(a, o) == Active(b, o)
  {
    assert Wf(b);
    ActiveAt(a, o);
    ActiveIs(b, o, Active(a, o));
  }

  lemma UpsertAlike<O, T>(a: Table<O, T>, b: Table<O, T>, o: O, item: Item<T>, at: Instant)
    requires SameButLastSeen(a, b) && Wf(a)
    ensures SameButLastSeen(Upsert(a, o, item, at), Upsert(b, o, item, at))
  {
    assert Affected(a, o, item.key) <==> Affected(b, o, item.key) by {
      assert forall id :: id in a.rows ==> (IsActiveKey(a.rows[id], o, item.key) <==> IsActiveKey(b.rows[id], o, item.key));
    }
  }

  lemma {:induction false} UpsertAllAlike<O, T>(a: Table<O, T>, b: Table<O, T>, o: O, items: seq<Item<T>>, at: Instant)
    requires SameButLastSeen(a, b) && Wf(a)
    ensures SameButLastSeen(UpsertAll(a, o, items, at), UpsertAll(b, o, items, at))
  {
    if items != [] {
      var n := |items| - 1;
      UpsertAllAlike(a, b, o, items[..n], at);
      UpsertAllView(a, o, items[..n], at);
      UpsertAlike(UpsertAll(a, o, items[..n], at), UpsertAll(b, o, items[..n], at), o, items[n], at);
    }
  }

  lemma SyncAlike<O, T>(a: Table<O, T>, b: Table<O, T>, o: O, items: seq<Item<T>>, at: Instant)
    requires SameButLastSeen(a, b) && Wf(a)
    ensures SameButLastSeen(Sync(a, o, items, at), Sync(b, o, items, at))
  {
    UpsertAllAlike(a, b, o, items, at);
  }

  /** Writing the columns a key already has changes nothing but the last-seen time. */
  lemma UpsertOfProjected<O, T>(t: Table<O, T>, o: O, item: Item<T>, at: Instant)
    requires Wf(t) && item.key in Active(t, o) && Active(t, o)[item.key].attrs == item.attrs
    ensures SameButLastSeen(t, Upsert(t, o, item, at))
  {
    hide Active;
    ActiveAt(t, o);
    var id := Active(t, o)[item.key].id;
    assert IsActiveKey(t.rows[id], o, item.key);
    var r := Upsert(t, o, item, at);
    forall i | i in t.rows ensures r.rows[i] == t.rows[i].(lastSeen := r.rows[i].lastSeen) {
      if IsActiveKey(t.rows[i], o, item.key) {
        assert BothActive(t.rows[i], t.rows[id]);
      }
    }
  }

  /** An upsert pass over keys that are all active draws no id. */
  lemma {:induction false} UpsertAllDrawsNothing<O, T>(t: Table<O, T>, o: O, items: seq<Item<T>>, at: Instant)
    requires Wf(t) && KeysOf(items) <= Active(t, o).Keys
    ensures UpsertAll(t, o, items, at).next == t.next && UpsertAll(t, o, items, at).rows.Keys == t.rows.Keys
  {
    if items != [] {
      var n := |items| - 1;
      KeysOfLast(items);
      UpsertAllDrawsNothing(t, o, items[..n], at);
      UpsertAllView(t, o, items[..n], at);
      var before := UpsertAll(t, o, items[..n], at);
      ActiveAt(before, o);
      assert items[n].key in Active(before, o);
      assert Affected(before, o, items[n].key);
    }
  }

  /** Syncing what the active rows already project changes nothing but last-seen times. */
  lemma SyncOfProjected<O, T>(t: Table<O, T>, o: O, items: seq<Item<T>>, at: Instant)
    requires Projects(t, o, items)
    ensures SameButLastSeen(t, Sync(t, o, items, at))
  {
    hide Active;
    var r := Sync(t, o, items, at);
    assert Active(t, o).Keys == Attrs(Active(t, o)).Keys == KeysOf(items);
    UpsertAllDrawsNothing(t, o, items, at);
    UpsertAllRows(t, o, items, at);
    SyncView(t, o, items, at);
    ActiveAt(t, o);
    ActiveAt(r, o);
    forall id | id in t.rows ensures r.rows[id] == t.rows[id].(lastSeen := r.rows[id].lastSeen) {
      if IsActive(t.rows[id], o) {
        var k := t.rows[id].key;
        assert k in KeysOf(items);
        assert Active(t, o)[k].id == id == Active(r, o)[k].id;
        assert Attrs(Active(t, o))[k] == LastWins(items)[k] == Attrs(Active(r, o))[k];
      }
    }
  }
}
