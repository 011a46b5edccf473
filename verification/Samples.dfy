/**
 * Minute samples and the "current" rows their triggers keep (internal/store/ingest.go:94-210 and the
 * `sync_*_current_metrics` triggers).
 *
 * The filesystem, network and GPU tables are handled by the same statements, so they are one operation here, for
 * any stored sample type `S` and any current-row type `C`.
 */
module Samples {
  import opened Text
  import opened Clock
  import opened Reports
  import opened InventoryTables
  import opened NetworkTables

  datatype MinuteKey = MinuteKey(minute: Minute, node: NodeId)

  datatype DetailKey = DetailKey(minute: Minute, node: NodeId, resource: Id)

  datatype ResourceKey = ResourceKey(node: NodeId, resource: Id)

  /** A current row: the minute it shows, and its columns. */
  datatype Latest<C> = Latest(minute: Minute, value: C)

  datatype Failure =
    | UnknownNode
    | InvalidResource(key: string)
    | CheckViolation
    | MissingPartition
    | DuplicateKey

  // ---- what one INSERT of a detail row does ----

  function TouchLatest<K, C>(current: map<K, Latest<C>>, k: K, minute: Minute, value: C): map<K, Latest<C>> {
    if k !in current || minute >= current[k].minute then current[k := Latest(minute, value)] else current
  }

  function Cleared<S>(table: map<DetailKey, S>, minute: Minute, node: NodeId): map<DetailKey, S> {
    map k | k in table && !(k.minute == minute && k.node == node) :: table[k]
  }

  // ---- the whole replacement, stated at once ----

  /** The rows of a minute replaced by `rows`; every other row as it was. */
  ghost function Placed<S>(table: map<DetailKey, S>, minute: Minute, node: NodeId, rows: map<Id, S>): map<DetailKey, S> {
    var added := set id | id in rows :: DetailKey(minute, node, id);
    map k | k in table.Keys + added && (k.minute == minute && k.node == node ==> k.resource in rows) ::
      if k.minute == minute && k.node == node then rows[k.resource] else table[k]
  }

  ghost predicate Overtakes<C>(current: map<ResourceKey, Latest<C>>, k: ResourceKey, minute: Minute) {
    k !in current || minute >= current[k].minute
  }

  /** Each row's resource shows this minute, unless it already shows a later one. */
  ghost function Refreshed<C>(current: map<ResourceKey, Latest<C>>, minute: Minute, node: NodeId, rows: map<Id, C>)
    : map<ResourceKey, Latest<C>>
  {
    var added := set id | id in rows :: ResourceKey(node, id);
    map k | k in current.Keys + added ::
      if k.node == node && k.resource in rows && Overtakes(current, k, minute) then Latest(minute, rows[k.resource]) else current[k]
  }

  ghost function Viewed<S, C>(view: S -> C, rows: map<Id, S>): map<Id, C> {
    map id | id in rows :: view(rows[id])
  }

  /** The sample rows of a list of metrics, resolved through the active ids. */
  function RowsOf<T, M, S>(ids: map<string, Entry<T>>, metrics: seq<Item<M>>, make: (M, T) -> S): map<Id, S>
    requires forall i :: 0 <= i < |metrics| ==> metrics[i].key in ids
  {
    if metrics == [] then map[]
    else
      var n := |metrics| - 1;
      var e := ids[metrics[n].key];
      RowsOf(ids, metrics[..n], make)[e.id := make(metrics[n].attrs, e.attrs)]
  }

  /** The first metric that cannot be stored, and why. */
  function FirstFailure<T, M, S>(ids: map<string, Entry<T>>, metrics: seq<Item<M>>, make: (M, T) -> S, check: S -> bool,
                                 partitioned: bool): (f: Option<Failure>)
    ensures f.None? ==> forall i :: 0 <= i < |metrics| ==> metrics[i].key in ids
  {
    if metrics == [] then None
    else
      var n := |metrics| - 1;
      var earlier := FirstFailure(ids, metrics[..n], make, check, partitioned);
      if earlier.Some? then earlier
      else
        var m := metrics[n];
        assert forall i :: 0 <= i < n ==> metrics[i] == metrics[..n][i];
        if m.key !in ids then Some(InvalidResource(m.key))
        else if !partitioned then Some(MissingPartition)
        else if !check(make(m.attrs, ids[m.key].attrs)) then Some(CheckViolation)
        else if ids[m.key].id in RowsOf(ids, metrics[..n], make) then Some(DuplicateKey)
        else None
  }

  /** The insert loop over one list of metrics, firing the current-row trigger after each row. */
  method InsertSamples<T, M, S, C>(
    ids: map<string, Entry<T>>, metrics: seq<Item<M>>, make: (M, T) -> S, check: S -> bool, view: S -> C,
    partitioned: bool, minute: Minute, node: NodeId, table: map<DetailKey, S>, current: map<ResourceKey, Latest<C>>)
    returns (failure: Option<Failure>, table': map<DetailKey, S>, current': map<ResourceKey, Latest<C>>)
    ensures failure == FirstFailure(ids, metrics, make, check, partitioned)
    ensures failure.None? ==>
              && table' == Placed(table, minute, node, RowsOf(ids, metrics, make))
              && current' == Refreshed(current, minute, node, Viewed(view, RowsOf(ids, metrics, make)))
  {
    hide Placed, Refreshed, Viewed, FirstFailure, RowsOf;
    table', current' := Cleared(table, minute, node), current;
    NothingYet(ids, metrics, make, check, view, partitioned, minute, node, table, current);
    for i := 0 to |metrics|
      invariant FirstFailure(ids, metrics[..i], make, check, partitioned).None?
      invariant forall j :: 0 <= j < i ==> metrics[j].key in ids
      invariant table' == Placed(table, minute, node, RowsOf(ids, metrics[..i], make))
      invariant current' == Refreshed(current, minute, node, Viewed(view, RowsOf(ids, metrics[..i], make)))
    {
      var m := metrics[i];
      FailureStep(ids, metrics, i, make, check, partitioned);
      OneMore(ids, metrics, i, make, check, partitioned);
      if m.key !in ids {
        return Some(InvalidResource(m.key)), table', current';
      }
      if !partitioned {
        return Some(MissingPartition), table', current';
      }
      var id, row := ids[m.key].id, make(m.attrs, ids[m.key].attrs);
      if !check(row) {
        return Some(CheckViolation), table', current';
      }
      var k := DetailKey(minute, node, id);
      ghost var rows := RowsOf(ids, metrics[..i], make);
      PlacedSlot(table, minute, node, rows);
      if k in table' {
        return Some(DuplicateKey), table', current';
      }
      PlaceOne(table, minute, node, rows, id, row);
      ViewedOne(view, rows, id, row);
      RefreshOne(current, minute, node, Viewed(view, rows), id, view(row));
      table' := table'[k := row];
      current' := TouchLatest(current', ResourceKey(node, id), minute, view(row));
    }
    assert metrics[..|metrics|] == metrics;
    failure := None;
  }

  lemma NothingYet<T, M, S, C>(
    ids: map<string, Entry<T>>, metrics: seq<Item<M>>, make: (M, T) -> S, check: S -> bool, view: S -> C,
    partitioned: bool, minute: Minute, node: NodeId, table: map<DetailKey, S>, current: map<ResourceKey, Latest<C>>)
    ensures FirstFailure(ids, metrics[..0], make, check, partitioned).None?
    ensures Cleared(table, minute, node) == Placed(table, minute, node, RowsOf(ids, metrics[..0], make))
    ensures current == Refreshed(current, minute, node, Viewed(view, RowsOf(ids, metrics[..0], make)))
  {}

  lemma OneMore<T, M, S>(ids: map<string, Entry<T>>, metrics: seq<Item<M>>, i: nat, make: (M, T) -> S, check: S -> bool,
                         partitioned: bool)
    requires i < |metrics| && FirstFailure(ids, metrics[..i], make, check, partitioned).None?
    ensures var m := metrics[i];
      && (forall j :: 0 <= j < i ==> metrics[j].key in ids)
      && FirstFailure(ids, metrics[..i + 1], make, check, partitioned)
         == (if m.key !in ids then Some(InvalidResource(m.key))
             else if !partitioned then Some(MissingPartition)
             else if !check(make(m.attrs, ids[m.key].attrs)) then Some(CheckViolation)
             else if ids[m.key].id in RowsOf(ids, metrics[..i], make) then Some(DuplicateKey)
             else None)
      && (m.key in ids ==> RowsOf(ids, metrics[..i + 1], make)
                           == RowsOf(ids, metrics[..i], make)[ids[m.key].id := make(m.attrs, ids[m.key].attrs)])
  {
    assert metrics[..i + 1][..i] == metrics[..i];
    assert forall j :: 0 <= j < i ==> metrics[j] == metrics[..i][j];
  }

  lemma {:induction false} FailureStep<T, M, S>(ids: map<string, Entry<T>>, metrics: seq<Item<M>>, i: nat, make: (M, T) -> S,
                                                check: S -> bool, partitioned: bool)
    requires i < |metrics| && FirstFailure(ids, metrics[..i], make, check, partitioned).None?
    ensures var next := FirstFailure(ids, metrics[..i + 1], make, check, partitioned);
      next.Some? ==> FirstFailure(ids, metrics, make, check, partitioned) == next
    decreases |metrics|
  {
    var n := |metrics| - 1;
    assert metrics[..i + 1][..i] == metrics[..i];
    if i < n {
      assert metrics[..n][..i] == metrics[..i] && metrics[..n][..i + 1] == metrics[..i + 1];
      FailureStep(ids, metrics[..n], i, make, check, partitioned);
    } else {
      assert metrics[..i + 1] == metrics;
    }
  }

  lemma PlaceOne<S>(table: map<DetailKey, S>, minute: Minute, node: NodeId, rows: map<Id, S>, id: Id, row: S)
    requires id !in rows
    ensures Placed(table, minute, node, rows[id := row])
            == Placed(table, minute, node, rows)[DetailKey(minute, node, id) := row]
  {
    var a, b := Placed(table, minute, node, rows[id := row]), Placed(table, minute, node, rows)[DetailKey(minute, node, id) := row];
    assert forall k :: k in a <==> k in b;
  }

  lemma ViewedOne<S, C>(view: S -> C, rows: map<Id, S>, id: Id, row: S)
    ensures Viewed(view, rows[id := row]) == Viewed(view, rows)[id := view(row)]
    ensures id in Viewed(view, rows) <==> id in rows
  {}

  lemma RefreshedAt<C>(current: map<ResourceKey, Latest<C>>, minute: Minute, node: NodeId, rows: map<Id, C>, k: ResourceKey)
    ensures var r := Refreshed(current, minute, node, rows);
      && (k in r <==> k in current || (k.node == node && k.resource in rows))
      && (k in r ==> r[k] == if k.node == node && k.resource in rows && Overtakes(current, k, minute)
                             then Latest(minute, rows[k.resource]) else current[k])
  {}

  lemma RefreshOne<C>(current: map<ResourceKey, Latest<C>>, minute: Minute, node: NodeId, rows: map<Id, C>, id: Id, value: C)
    requires id !in rows
    ensures Refreshed(current, minute, node, rows[id := value])
            == TouchLatest(Refreshed(current, minute, node, rows), ResourceKey(node, id), minute, value)
  {
    hide Refreshed;
    var a := Refreshed(current, minute, node, rows[id := value]);
    var b := TouchLatest(Refreshed(current, minute, node, rows), ResourceKey(node, id), minute, value);
    RefreshedAt(current, minute, node, rows, ResourceKey(node, id));
    forall k ensures (k in a <==> k in b) && (k in a ==> a[k] == b[k]) {
      RefreshedAt(current, minute, node, rows[id := value], k);
      RefreshedAt(current, minute, node, rows, k);
    }
  }

  // ---- what the metrics resolve to ----

  /** Valid metrics over the active ids never fail, provided every row passes its checks. */
  lemma {:induction false} ResolvableNeverFails<T, M, S>(ids: map<string, Entry<T>>, metrics: seq<Item<M>>, make: (M, T) -> S,
                                                         check: S -> bool, partitioned: bool)
    requires DistinctKeys(metrics)
    requires forall j, k :: j in ids && k in ids && ids[j].id == ids[k].id ==> j == k
    requires forall i :: 0 <= i < |metrics| ==> metrics[i].key in ids && check(make(metrics[i].attrs, ids[metrics[i].key].attrs))
    ensures FirstFailure(ids, metrics, make, check, partitioned)
            == if metrics == [] || partitioned then None else Some(MissingPartition)
    ensures forall id :: id in RowsOf(ids, metrics, make) ==> exists i :: 0 <= i < |metrics| && ids[metrics[i].key].id == id
  {
    if metrics != [] {
      var n := |metrics| - 1;
      ResolvableNeverFails(ids, metrics[..n], make, check, partitioned);
      forall i | 0 <= i < n ensures ids[metrics[..n][i].key].id != ids[metrics[n].key].id {
        assert metrics[..n][i] == metrics[i];
      }
      forall id | id in RowsOf(ids, metrics, make) ensures exists i :: 0 <= i < |metrics| && ids[metrics[i].key].id == id {
        if id in RowsOf(ids, metrics[..n], make) {
          var i :| 0 <= i < n && ids[metrics[..n][i].key].id == id;
          assert ids[metrics[i].key].id == id;
        }
      }
    }
  }

  /** The resolved rows are one per metric, made from it and from its resource's columns. */
  lemma {:induction false} RowsOfAt<T, M, S>(ids: map<string, Entry<T>>, metrics: seq<Item<M>>, make: (M, T) -> S, i: nat)
    requires DistinctKeys(metrics) && i < |metrics|
    requires forall j, k :: j in ids && k in ids && ids[j].id == ids[k].id ==> j == k
    requires forall i :: 0 <= i < |metrics| ==> metrics[i].key in ids
    ensures ids[metrics[i].key].id in RowsOf(ids, metrics, make)
    ensures RowsOf(ids, metrics, make)[ids[metrics[i].key].id] == make(metrics[i].attrs, ids[metrics[i].key].attrs)
  {
    var n := |metrics| - 1;
    if i < n {
      assert metrics[..n][i] == metrics[i];
      RowsOfAt(ids, metrics[..n], make, i);
      assert metrics[i].key != metrics[n].key;
    }
  }

  // ---- the slot of a minute ----

  ghost predicate SlotIs<S>(table: map<DetailKey, S>, minute: Minute, node: NodeId, rows: map<Id, S>) {
    forall id :: (DetailKey(minute, node, id) in table <==> id in rows)
                 && (id in rows ==> table[DetailKey(minute, node, id)] == rows[id])
  }

  lemma PlacedSlot<S>(table: map<DetailKey, S>, minute: Minute, node: NodeId, rows: map<Id, S>)
    ensures SlotIs(Placed(table, minute, node, rows), minute, node, rows)
    ensures forall m, n, r :: (m != minute || n != node) && SlotIs(table, m, n, r) ==> SlotIs(Placed(table, minute, node, rows), m, n, r)
    ensures forall k: DetailKey :: k.minute != minute || k.node != node ==>
              (k in Placed(table, minute, node, rows) <==> k in table)
              && (k in table ==> Placed(table, minute, node, rows)[k] == table[k])
  {
    var t := Placed(table, minute, node, rows);
    forall m, n, r | (m != minute || n != node) && SlotIs(table, m, n, r) ensures SlotIs(t, m, n, r) {
      forall id ensures (DetailKey(m, n, id) in t <==> id in r) && (id in r ==> t[DetailKey(m, n, id)] == r[id]) {
        assert DetailKey(m, n, id) in t <==> DetailKey(m, n, id) in table;
      }
    }
  }

  // ---- current rows agree with history ----

  /** Every stored sample's resource has a current row that is at least as late, and shows the sample if equally late. */
  ghost predicate Agrees<S, C>(table: map<DetailKey, S>, current: map<ResourceKey, Latest<C>>, view: (DetailKey, S) -> C) {
    forall k :: k in table ==> ShownBy(current, ResourceKey(k.node, k.resource), k.minute, view(k, table[k]))
  }

  ghost predicate ShownBy<K, C>(current: map<K, Latest<C>>, k: K, minute: Minute, value: C) {
    k in current && minute <= current[k].minute && (minute == current[k].minute ==> current[k].value == value)
  }

  /** Replacing a minute's rows and firing the triggers keeps the agreement, retries and late arrivals included. */
  lemma AgreesKept<S, C>(table: map<DetailKey, S>, current: map<ResourceKey, Latest<C>>, view: (DetailKey, S) -> C,
                         view': (DetailKey, S) -> C, minute: Minute, node: NodeId, rows: map<Id, S>, shown: map<Id, C>)
    requires Agrees(table, current, view)
    requires forall k: DetailKey, s: S :: (k.minute != minute || k.node != node) ==> view'(k, s) == view(k, s)
    requires shown.Keys == rows.Keys
    requires forall id :: id in rows ==> shown[id] == view'(DetailKey(minute, node, id), rows[id])
    ensures Agrees(Placed(table, minute, node, rows), Refreshed(current, minute, node, shown), view')
  {
    var t, c := Placed(table, minute, node, rows), Refreshed(current, minute, node, shown);
    forall k | k in t ensures ShownBy(c, ResourceKey(k.node, k.resource), k.minute, view'(k, t[k])) {
      var r := ResourceKey(k.node, k.resource);
      if k.minute == minute && k.node == node {
        assert k.resource in rows && t[k] == rows[k.resource];
        if Overtakes(current, r, minute) {
          assert c[r] == Latest(minute, shown[k.resource]);
        }
      } else {
        assert k in table && t[k] == table[k];
        assert ShownBy(current, r, k.minute, view(k, table[k]));
        if k.node == node && k.resource in shown && Overtakes(current, r, minute) {
          assert c[r] == Latest(minute, shown[k.resource]);
        } else {
          assert r in c && c[r] == current[r];
        }
      }
    }
  }

  lemma AgreesShrinks<S, C>(table: map<DetailKey, S>, less: map<DetailKey, S>, current: map<ResourceKey, Latest<C>>,
                            view: (DetailKey, S) -> C, view': (DetailKey, S) -> C)
    requires Agrees(table, current, view)
    requires forall k :: k in less ==> k in table && less[k] == table[k] && view'(k, less[k]) == view(k, less[k])
    ensures Agrees(less, current, view')
  {
    forall k | k in less ensures ShownBy(current, ResourceKey(k.node, k.resource), k.minute, view'(k, less[k])) {
      assert ShownBy(current, ResourceKey(k.node, k.resource), k.minute, view(k, table[k]));
    }
  }

  // ---- order of arrival ----

  /** A node's samples in the order they were committed. */
  datatype Arrival<C> = Arrival(minute: Minute, value: C)

  /** The current row after a sequence of arrivals. */
  function Replay<C>(h: seq<Arrival<C>>): Option<Latest<C>> {
    if h == [] then None
    else
      var n := |h| - 1;
      var before := Replay(h[..n]);
      if before.None? || h[n].minute >= before.value.minute then Some(Latest(h[n].minute, h[n].value)) else before
  }

  /** The row shown is the last arrival among those of the greatest minute. */
  lemma {:induction false} ReplayIsLastOfGreatest<C>(h: seq<Arrival<C>>) returns (i: nat)
    requires h != []
    ensures i < |h| && Replay(h) == Some(Latest(h[i].minute, h[i].value))
    ensures forall j :: 0 <= j < |h| ==> h[j].minute <= h[i].minute
    ensures forall j :: i < j < |h| ==> h[j].minute < h[i].minute
  {
    var n := |h| - 1;
    if n == 0 {
      i := 0;
    } else {
      i := ReplayIsLastOfGreatest(h[..n]);
      assert h[..n][i] == h[i];
      forall j | 0 <= j < n ensures h[j].minute <= h[i].minute {
        assert h[..n][j] == h[j];
      }
      forall j | i < j < n ensures h[j].minute < h[i].minute {
        assert h[..n][j] == h[j];
      }
      if h[n].minute >= h[i].minute {
        i := n;
      }
    }
  }

  /** Reports for distinct minutes leave the same current row in whatever order they arrive. */
  lemma ArrivalOrderIrrelevant<C>(a: seq<Arrival<C>>, b: seq<Arrival<C>>)
    requires multiset(a) == multiset(b)
    requires forall i, j :: 0 <= i < j < |a| ==> a[i].minute != a[j].minute
    ensures Replay(a) == Replay(b)
  {
    assert |multiset(a)| == |a| && |multiset(b)| == |b|;
    if a != [] {
      var i := ReplayIsLastOfGreatest(a);
      var j := ReplayIsLastOfGreatest(b);
      assert a[i] in multiset(a) && b[j] in multiset(b);
      assert a[i] in multiset(b) && b[j] in multiset(a);
      var k :| 0 <= k < |b| && b[k] == a[i];
      var l :| 0 <= l < |a| && a[l] == b[j];
      assert a[l].minute == a[i].minute;
    }
  }
}
