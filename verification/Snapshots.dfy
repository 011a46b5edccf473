/**
 * Whole-snapshot tables: current temperatures and current storage health (internal/store/ingest.go:211-306).
 *
 * Both are one operation here: `K` is the sensor key or the block device id, `V` the columns.
 */
module Snapshots {
  import opened Text
  import opened Clock
  import opened Reports
  import opened InventoryTables
  import opened NetworkTables
  import opened Samples

  datatype SnapshotKey<K> = SnapshotKey(node: NodeId, part: K)

  datatype SnapshotRow<V> = SnapshotRow(minute: Minute, collectedAt: Instant, receivedAt: Instant, value: V)

  /** One report's list, resolved to rows. */
  datatype Snapshot<K, V> = Snapshot(minute: Minute, collectedAt: Instant, receivedAt: Instant, rows: map<K, V>)

  type SnapshotTable<K(==), V> = map<SnapshotKey<K>, SnapshotRow<V>>

  /** The freshness query: no row of the node shows a later minute. */
  predicate CanBeReplaced<K(==), V>(table: SnapshotTable<K, V>, node: NodeId, minute: Minute) {
    !exists k :: k in table && k.node == node && table[k].minute > minute
  }

  function WithoutNode<K, V>(table: SnapshotTable<K, V>, node: NodeId): SnapshotTable<K, V> {
    map k | k in table && k.node != node :: table[k]
  }

  ghost function Filled<K, V>(s: Snapshot<K, V>): map<K, SnapshotRow<V>> {
    map k | k in s.rows :: SnapshotRow(s.minute, s.collectedAt, s.receivedAt, s.rows[k])
  }

  /** The node's rows are `rows`, everyone else's are those of `table`. */
  ghost function Installed<K, V>(table: SnapshotTable<K, V>, node: NodeId, rows: map<K, SnapshotRow<V>>): SnapshotTable<K, V> {
    var added := set k | k in rows :: SnapshotKey(node, k);
    map k | k in table.Keys + added && (k.node == node ==> k.part in rows) ::
      if k.node == node then rows[k.part] else table[k]
  }

  ghost function Replaced<K, V>(table: SnapshotTable<K, V>, node: NodeId, s: Snapshot<K, V>): SnapshotTable<K, V> {
    if CanBeReplaced(table, node, s.minute) then Installed(table, node, Filled(s)) else table
  }

  function SnapshotRows<M, K>(resolve: string -> Option<K>, metrics: seq<Item<M>>): map<K, M>
    requires forall i :: 0 <= i < |metrics| ==> resolve(metrics[i].key).Some?
  {
    if metrics == [] then map[]
    else
      var n := |metrics| - 1;
      SnapshotRows(resolve, metrics[..n])[resolve(metrics[n].key).value := metrics[n].attrs]
  }

  function FirstUnstorable<M, K(==)>(resolve: string -> Option<K>, metrics: seq<Item<M>>): (f: Option<Failure>)
    ensures f.None? ==> forall i :: 0 <= i < |metrics| ==> resolve(metrics[i].key).Some?
  {
    if metrics == [] then None
    else
      var n := |metrics| - 1;
      var earlier := FirstUnstorable(resolve, metrics[..n]);
      if earlier.Some? then earlier
      else
        assert forall i :: 0 <= i < n ==> metrics[i] == metrics[..n][i];
        if resolve(metrics[n].key).None? then Some(InvalidResource(metrics[n].key))
        else if resolve(metrics[n].key).value in SnapshotRows(resolve, metrics[..n]) then Some(DuplicateKey)
        else None
  }

  /** `replaceTemperatureMetrics` and `replaceStorageHealthMetrics`: freshness test, delete, insert loop. */
  method ReplaceSnapshot<M, K(==)>(
    table: SnapshotTable<K, M>, node: NodeId, minute: Minute, collectedAt: Instant, receivedAt: Instant,
    resolve: string -> Option<K>, metrics: seq<Item<M>>)
    returns (failure: Option<Failure>, table': SnapshotTable<K, M>)
    ensures failure == if CanBeReplaced(table, node, minute) then FirstUnstorable(resolve, metrics) else None
    ensures failure.None? && !CanBeReplaced(table, node, minute) ==> table' == table
    ensures failure.None? && CanBeReplaced(table, node, minute) ==>
              table' == Replaced(table, node, Snapshot(minute, collectedAt, receivedAt, SnapshotRows(resolve, metrics)))
  {
    var replace := CanBeReplaced(table, node, minute);
    if !replace {
      return None, table;
    }
    hide CanBeReplaced, FirstUnstorable, SnapshotRows, Filled, Installed;
    table' := WithoutNode(table, node);
    NoRowsYet(table, node, minute, collectedAt, receivedAt, resolve, metrics);
    for i := 0 to |metrics|
      invariant FirstUnstorable(resolve, metrics[..i]).None?
      invariant table' == Installed(table, node, Filled(Snapshot(minute, collectedAt, receivedAt, SnapshotRows(resolve, metrics[..i]))))
    {
      StoreOne(table, node, minute, collectedAt, receivedAt, resolve, metrics, i);
      var part := resolve(metrics[i].key);
      if part.None? {
        return Some(InvalidResource(metrics[i].key)), table';
      }
      var k := SnapshotKey(node, part.value);
      if k in table' {
        return Some(DuplicateKey), table';
      }
      table' := table'[k := SnapshotRow(minute, collectedAt, receivedAt, metrics[i].attrs)];
    }
    assert metrics[..|metrics|] == metrics;
    failure := None;
  }

  /** One turn of the insert loop. */
  lemma StoreOne<M, K>(table: SnapshotTable<K, M>, node: NodeId, minute: Minute, collectedAt: Instant, receivedAt: Instant,
                       resolve: string -> Option<K>, metrics: seq<Item<M>>, i: nat)
    requires i < |metrics| && FirstUnstorable(resolve, metrics[..i]).None?
    ensures var m := metrics[i];
      var t := Installed(table, node, Filled(Snapshot(minute, collectedAt, receivedAt, SnapshotRows(resolve, metrics[..i]))));
      var part := resolve(m.key);
      if part.None? then FirstUnstorable(resolve, metrics) == Some(InvalidResource(m.key))
      else if SnapshotKey(node, part.value) in t then FirstUnstorable(resolve, metrics) == Some(DuplicateKey)
      else
        && FirstUnstorable(resolve, metrics[..i + 1]).None?
        && t[SnapshotKey(node, part.value) := SnapshotRow(minute, collectedAt, receivedAt, m.attrs)]
           == Installed(table, node, Filled(Snapshot(minute, collectedAt, receivedAt, SnapshotRows(resolve, metrics[..i + 1]))))
  {
    hide FirstUnstorable, SnapshotRows, Filled, Installed;
    UnstorableStep(resolve, metrics, i);
    OneMoreRow(resolve, metrics, i);
    var part := resolve(metrics[i].key);
    if part.Some? {
      InstallOne(table, node, minute, collectedAt, receivedAt, SnapshotRows(resolve, metrics[..i]), part.value, metrics[i].attrs);
    }
  }

  lemma NoRowsYet<M, K>(table: SnapshotTable<K, M>, node: NodeId, minute: Minute, collectedAt: Instant, receivedAt: Instant,
                        resolve: string -> Option<K>, metrics: seq<Item<M>>)
    ensures FirstUnstorable(resolve, metrics[..0]).None?
    ensures WithoutNode(table, node)
            == Installed(table, node, Filled(Snapshot(minute, collectedAt, receivedAt, SnapshotRows(resolve, metrics[..0]))))
  {}

  lemma InstallOne<K, M>(table: SnapshotTable<K, M>, node: NodeId, minute: Minute, collectedAt: Instant, receivedAt: Instant,
                         rows: map<K, M>, part: K, value: M)
    ensures var t := Installed(table, node, Filled(Snapshot(minute, collectedAt, receivedAt, rows)));
      && (SnapshotKey(node, part) in t <==> part in rows)
      && t[SnapshotKey(node, part) := SnapshotRow(minute, collectedAt, receivedAt, value)]
         == Installed(table, node, Filled(Snapshot(minute, collectedAt, receivedAt, rows[part := value])))
  {
    var before, after := Filled(Snapshot(minute, collectedAt, receivedAt, rows)), Filled(Snapshot(minute, collectedAt, receivedAt, rows[part := value]));
    var row := SnapshotRow(minute, collectedAt, receivedAt, value);
    assert after == before[part := row];
    hide Filled;
    InstallAt(table, node, before, SnapshotKey(node, part));
    var t, u := Installed(table, node, before), Installed(table, node, after);
    var t' := t[SnapshotKey(node, part) := row];
    forall k ensures (k in t' <==> k in u) && (k in t' ==> t'[k] == u[k]) {
      InstallAt(table, node, before, k);
      InstallAt(table, node, after, k);
    }
    hide Installed;
    SameMap(t', u);
  }

  lemma InstallAt<K, M>(table: SnapshotTable<K, M>, node: NodeId, rows: map<K, SnapshotRow<M>>, k: SnapshotKey<K>)
    ensures var t := Installed(table, node, rows);
      if k.node == node then (k in t <==> k.part in rows) && (k in t ==> t[k] == rows[k.part])
      else (k in t <==> k in table) && (k in t ==> t[k] == table[k])
  {}

  lemma OneMoreRow<M, K>(resolve: string -> Option<K>, metrics: seq<Item<M>>, i: nat)
    requires i < |metrics| && FirstUnstorable(resolve, metrics[..i]).None?
    ensures var m := metrics[i];
      && (forall j :: 0 <= j < i ==> resolve(metrics[j].key).Some?)
      && FirstUnstorable(resolve, metrics[..i + 1])
         == (if resolve(m.key).None? then Some(InvalidResource(m.key))
             else if resolve(m.key).value in SnapshotRows(resolve, metrics[..i]) then Some(DuplicateKey) else None)
      && (resolve(m.key).Some? ==>
            SnapshotRows(resolve, metrics[..i + 1]) == SnapshotRows(resolve, metrics[..i])[resolve(m.key).value := m.attrs])
  {
    assert metrics[..i + 1][..i] == metrics[..i];
    assert forall j :: 0 <= j < i ==> metrics[j] == metrics[..i][j];
  }

  lemma {:induction false} UnstorableStep<M, K>(resolve: string -> Option<K>, metrics: seq<Item<M>>, i: nat)
    requires i < |metrics| && FirstUnstorable(resolve, metrics[..i]).None?
    ensures var next := FirstUnstorable(resolve, metrics[..i + 1]);
      next.Some? ==> FirstUnstorable(resolve, metrics) == next
    decreases |metrics|
  {
    var n := |metrics| - 1;
    assert metrics[..i + 1][..i] == metrics[..i];
    if i < n {
      assert metrics[..n][..i] == metrics[..i] && metrics[..n][..i + 1] == metrics[..i + 1];
      UnstorableStep(resolve, metrics[..n], i);
    } else {
      assert metrics[..i + 1] == metrics;
    }
  }

  /** Lists whose keys resolve, distinctly, are always storable. */
  lemma {:induction false} ResolvableIsStorable<M, K>(resolve: string -> Option<K>, metrics: seq<Item<M>>)
    requires DistinctKeys(metrics)
    requires forall i :: 0 <= i < |metrics| ==> resolve(metrics[i].key).Some?
    requires forall j, k :: resolve(j).Some? && resolve(j) == resolve(k) ==> j == k
    ensures FirstUnstorable(resolve, metrics).None?
    ensures forall p :: p in SnapshotRows(resolve, metrics) ==> exists i :: 0 <= i < |metrics| && resolve(metrics[i].key) == Some(p)
  {
    if metrics != [] {
      var n := |metrics| - 1;
      ResolvableIsStorable(resolve, metrics[..n]);
      forall i | 0 <= i < n ensures resolve(metrics[..n][i].key) != resolve(metrics[n].key) {
        assert metrics[..n][i] == metrics[i];
      }
      forall p | p in SnapshotRows(resolve, metrics) ensures exists i :: 0 <= i < |metrics| && resolve(metrics[i].key) == Some(p) {
        if p in SnapshotRows(resolve, metrics[..n]) {
          var i :| 0 <= i < n && resolve(metrics[..n][i].key) == Some(p);
          assert resolve(metrics[i].key) == Some(p);
        }
      }
    }
  }

  // ---- one node's rows over a history ----

  ghost function RowsOfNode<K, V>(table: SnapshotTable<K, V>, node: NodeId): map<K, SnapshotRow<V>> {
    map k | k in table && k.node == node :: k.part := table[k]
  }

  ghost function Next<K, V>(rows: map<K, SnapshotRow<V>>, s: Snapshot<K, V>): map<K, SnapshotRow<V>> {
    if exists k :: k in rows && rows[k].minute > s.minute then rows else Filled(s)
  }

  /** A replacement is one step of the node's own rows, and no step of anyone else's. */
  lemma ReplacedIsNext<K, V>(table: SnapshotTable<K, V>, node: NodeId, s: Snapshot<K, V>)
    ensures RowsOfNode(Replaced(table, node, s), node) == Next(RowsOfNode(table, node), s)
    ensures forall n :: n != node ==> RowsOfNode(Replaced(table, node, s), n) == RowsOfNode(table, n)
  {
    hide RowsOfNode, Installed, Filled;
    FreshnessOfNode(table, node, s.minute);
    if CanBeReplaced(table, node, s.minute) {
      InstalledRows(table, node, Filled(s));
    }
  }

  lemma SameMap<K, V>(a: map<K, V>, b: map<K, V>)
    requires forall k :: (k in a <==> k in b) && (k in a ==> a[k] == b[k])
    ensures a == b
  {
    assert a.Keys == b.Keys;
  }

  lemma RowsOfNodeAt<K, V>(table: SnapshotTable<K, V>, node: NodeId, k: K)
    ensures k in RowsOfNode(table, node) <==> SnapshotKey(node, k) in table
    ensures k in RowsOfNode(table, node) ==> RowsOfNode(table, node)[k] == table[SnapshotKey(node, k)]
  {}

  lemma FreshnessOfNode<K, V>(table: SnapshotTable<K, V>, node: NodeId, minute: Minute)
    ensures CanBeReplaced(table, node, minute) <==>
            !exists k :: k in RowsOfNode(table, node) && RowsOfNode(table, node)[k].minute > minute
  {
    hide RowsOfNode;
    var rows := RowsOfNode(table, node);
    if k :| k in rows && rows[k].minute > minute {
      RowsOfNodeAt(table, node, k);
      assert SnapshotKey(node, k) in table;
    }
    if k :| k in table && k.node == node && table[k].minute > minute {
      RowsOfNodeAt(table, node, k.part);
      assert k == SnapshotKey(node, k.part);
    }
  }

  lemma InstalledRows<K, V>(table: SnapshotTable<K, V>, node: NodeId, rows: map<K, SnapshotRow<V>>)
    ensures RowsOfNode(Installed(table, node, rows), node) == rows
    ensures forall n :: n != node ==> RowsOfNode(Installed(table, node, rows), n) == RowsOfNode(table, n)
  {
    hide RowsOfNode;
    var t := Installed(table, node, rows);
    forall k ensures (k in RowsOfNode(t, node) <==> k in rows) && (k in rows ==> RowsOfNode(t, node)[k] == rows[k]) {
      RowsOfNodeAt(t, node, k);
    }
    SameMap(RowsOfNode(t, node), rows);
    forall n | n != node ensures RowsOfNode(t, n) == RowsOfNode(table, n) {
      forall k ensures (k in RowsOfNode(t, n) <==> k in RowsOfNode(table, n))
                       && (k in RowsOfNode(table, n) ==> RowsOfNode(t, n)[k] == RowsOfNode(table, n)[k]) {
        RowsOfNodeAt(t, n, k);
        RowsOfNodeAt(table, n, k);
      }
      SameMap(RowsOfNode(t, n), RowsOfNode(table, n));
    }
  }

  ghost function ReplaySnapshots<K, V>(h: seq<Snapshot<K, V>>): map<K, SnapshotRow<V>> {
    if h == [] then map[] else Next(ReplaySnapshots(h[..|h| - 1]), h[|h| - 1])
  }

  /** Whatever the history, the rows are exactly one report's list, so they carry one minute; or there are none. */
  lemma {:induction false} SnapshotIsWhole<K, V>(h: seq<Snapshot<K, V>>)
    ensures ReplaySnapshots(h) == map[] || exists i :: 0 <= i < |h| && ReplaySnapshots(h) == Filled(h[i])
  {
    if h != [] {
      var n := |h| - 1;
      SnapshotIsWhole(h[..n]);
      if ReplaySnapshots(h) == ReplaySnapshots(h[..n]) && ReplaySnapshots(h) != map[] {
        var i :| 0 <= i < n && ReplaySnapshots(h[..n]) == Filled(h[..n][i]);
        assert ReplaySnapshots(h) == Filled(h[i]);
      } else if ReplaySnapshots(h) != map[] {
        assert ReplaySnapshots(h) == Filled(h[n]);
      }
    }
  }

  /** The rows stay, or give way to rows of a minute that none of them is later than. */
  ghost predicate Forward<K, V>(before: map<K, SnapshotRow<V>>, after: map<K, SnapshotRow<V>>, minute: Minute) {
    after == before || ((forall k :: k in before ==> before[k].minute <= minute) && (forall k :: k in after ==> after[k].minute == minute))
  }

  lemma NextIsForward<K, V>(rows: map<K, SnapshotRow<V>>, s: Snapshot<K, V>)
    ensures Forward(rows, Next(rows, s), s.minute)
  {}

  ghost predicate OneMinute<K, V>(rows: map<K, SnapshotRow<V>>) {
    forall k, l :: k in rows && l in rows ==> rows[k].minute == rows[l].minute
  }

  ghost predicate NoEarlier<K, V>(before: map<K, SnapshotRow<V>>, after: map<K, SnapshotRow<V>>) {
    forall k, l :: k in before && l in after ==> before[k].minute <= after[l].minute
  }

  /** As long as there are rows, their minute never falls. */
  lemma {:induction false} MinuteNeverFalls<K, V>(rows: seq<map<K, SnapshotRow<V>>>, minutes: seq<Minute>, i: nat, j: nat)
    requires |rows| == |minutes| + 1 && i <= j < |rows| && OneMinute(rows[i])
    requires forall n :: i <= n <= j ==> rows[n] != map[]
    requires forall n :: 0 <= n < |minutes| ==> Forward(rows[n], rows[n + 1], minutes[n])
    ensures NoEarlier(rows[i], rows[j])
  {
    if i < j {
      MinuteNeverFalls(rows, minutes, i, j - 1);
      assert Forward(rows[j - 1], rows[j], minutes[j - 1]);
      var k :| k in rows[j - 1];
    }
  }

  /** `i` is the last report accepted for the greatest minute. */
  ghost predicate IsLatest<K, V>(h: seq<Snapshot<K, V>>, i: nat) {
    && i < |h|
    && (forall j :: 0 <= j < |h| ==> h[j].minute <= h[i].minute)
    && (forall j :: i < j < |h| ==> h[j].minute < h[i].minute)
  }

  /** Every later arrival is for an earlier minute. */
  ghost predicate IsRecord<K, V>(h: seq<Snapshot<K, V>>, i: nat) {
    i < |h| && forall j :: i < j < |h| ==> h[j].minute < h[i].minute
  }

  /** What a history leaves: the list of its first record that is not empty, or nothing when all records are empty. */
  lemma {:induction false} ReplayShowsFirstFullRecord<K, V>(h: seq<Snapshot<K, V>>) returns (i: int)
    ensures i < 0 ==> ReplaySnapshots(h) == map[] && forall j :: 0 <= j < |h| && IsRecord(h, j) ==> h[j].rows == map[]
    ensures i >= 0 ==> IsRecord(h, i) && h[i].rows != map[] && ReplaySnapshots(h) == Filled(h[i])
                       && forall j :: 0 <= j < i && IsRecord(h, j) ==> h[j].rows == map[]
  {
    i := -1;
    if h != [] {
      var n := |h| - 1;
      var p := h[..n];
      i := ReplayShowsFirstFullRecord(p);
      forall j | 0 <= j < n && IsRecord(h, j) ensures IsRecord(p, j) {}
      FilledEmptyIff(h[n]);
      if i >= 0 {
        assert p[i] == h[i];
        var part :| part in h[i].rows;
        assert ReplaySnapshots(p)[part].minute == h[i].minute;
        if h[n].minute >= h[i].minute {
          assert forall j :: i <= j < n ==> h[j].minute <= h[n].minute by {
            forall j | i < j < n ensures h[j].minute <= h[n].minute {
              assert p[j].minute < p[i].minute;
            }
          }
          i := if h[n].rows == map[] then -1 else n;
        }
      } else {
        i := if h[n].rows == map[] then -1 else n;
      }
    }
  }

  lemma FilledEmptyIff<K, V>(s: Snapshot<K, V>)
    ensures Filled(s) == map[] <==> s.rows == map[]
  {
    if k :| k in s.rows {
      assert k in Filled(s);
    }
  }

  /**
   * The rows are the list of the last report accepted for the greatest minute exactly when that list is not empty,
   * or when no arrival that later reports leave standing has a list.
   */
  lemma LatestShownIff<K, V>(h: seq<Snapshot<K, V>>, latest: nat)
    requires IsLatest(h, latest)
    ensures ReplaySnapshots(h) == Filled(h[latest])
            <==> h[latest].rows != map[] || forall j :: 0 <= j < |h| && IsRecord(h, j) ==> h[j].rows == map[]
  {
    var i := ReplayShowsFirstFullRecord(h);
    FilledEmptyIff(h[latest]);
    assert IsRecord(h, latest);
    if i >= 0 {
      FilledEmptyIff(h[i]);
    }
  }

  /** When no list is empty, the rows are those of the last report accepted for the greatest minute. */
  lemma NonEmptyListsShowLatest<K, V>(h: seq<Snapshot<K, V>>, latest: nat)
    requires IsLatest(h, latest) && forall j :: 0 <= j < |h| ==> h[j].rows != map[]
    ensures ReplaySnapshots(h) == Filled(h[latest])
  {
    LatestShownIff(h, latest);
  }

  /** An empty newer list leaves no row for the freshness test, so an older report gets in after it. */
  lemma EmptyListForgetsItsMinute(v: int)
    ensures var newer: Snapshot<string, int> := Snapshot(10, 10, 10, map[]);
      var older := Snapshot(5, 5, 11, map["sensor" := v]);
      IsLatest([newer, older], 0) && ReplaySnapshots([newer, older]) == Filled(older) != Filled(newer)
  {
    var newer: Snapshot<string, int> := Snapshot(10, 10, 10, map[]);
    var older := Snapshot(5, 5, 11, map["sensor" := v]);
    assert [newer, older][..1] == [newer] && [newer][..0] == [];
    assert ReplaySnapshots([newer]) == Next(map[], newer) == map[];
    assert ReplaySnapshots([newer, older]) == Next(map[], older);
    assert "sensor" in Filled(older);
  }
}
