/** Extending 32-bit interface counters to 64 bits (windows-agent/collector_windows.go:420-503). */
module Counters {
  import opened Text
  import opened Numbers
  import opened Reports

  type U32 = n: nat | n < TWO_32

  type U64 = n: nat | n < TWO_64

  /** One row of the interface table. */
  datatype IfRow = IfRow(
    inOctets: U32, outOctets: U32, inUcast: U32, inNUcast: U32, outUcast: U32, outNUcast: U32,
    inErrors: U32, outErrors: U32, inDiscards: U32, outDiscards: U32, operStatus: int)

  datatype CounterState = CounterState(
    inOctets: U32, outOctets: U32, inPackets: U32, outPackets: U32,
    inErrors: U32, outErrors: U32, inDiscards: U32, outDiscards: U32, totalIn: U64, totalOut: U64)

  /** An interface as one round finds it; it may have no row. */
  datatype Interface = Interface(index: int, loopback: bool, key: string, up: bool, row: Option<IfRow>)

  /** Unsigned 32-bit and 64-bit addition. */
  function Add32(a: U32, b: U32): U32 { (a + b) % TWO_32 }

  function Add64(a: U64, b: nat): U64 { (a + b) % TWO_64 }

  function CounterDelta32(current: U32, previous: U32): (d: nat)
    ensures d < TWO_32 && d == (current - previous) % TWO_32
  {
    if current >= previous then current - previous else current + TWO_32 - previous
  }

  // ---- one reading ----

  function FirstState(row: IfRow): CounterState {
    CounterState(
      row.inOctets, row.outOctets, Add32(row.inUcast, row.inNUcast), Add32(row.outUcast, row.outNUcast),
      row.inErrors, row.outErrors, row.inDiscards, row.outDiscards, row.inOctets, row.outOctets)
  }

  function NextState(s: CounterState, row: IfRow): CounterState {
    FirstState(row).(
      totalIn := Add64(s.totalIn, CounterDelta32(row.inOctets, s.inOctets)),
      totalOut := Add64(s.totalOut, CounterDelta32(row.outOctets, s.outOctets)))
  }

  function Deltas(s: CounterState, row: IfRow, up: bool): NetworkMetrics {
    NetworkMetrics(
      up, 0, 0,
      CounterDelta32(row.inOctets, s.inOctets), CounterDelta32(row.outOctets, s.outOctets),
      CounterDelta32(Add32(row.inUcast, row.inNUcast), s.inPackets), CounterDelta32(Add32(row.outUcast, row.outNUcast), s.outPackets),
      CounterDelta32(row.inErrors, s.inErrors), CounterDelta32(row.outErrors, s.outErrors),
      CounterDelta32(row.inDiscards, s.inDiscards), CounterDelta32(row.outDiscards, s.outDiscards))
  }

  const NOTHING := NetworkMetrics(false, 0, 0, 0, 0, 0, 0, 0, 0, 0, 0)

  /** The collector's table, and what it reports. */
  datatype Progress = Progress(network: map<int, CounterState>, metrics: seq<Item<NetworkMetrics>>)

  function MetricOf(network: map<int, CounterState>, i: Interface): NetworkMetrics {
    if i.row.None? then NOTHING.(linkUp := i.up)
    else
      var row := i.row.value;
      var after := Stored(network, i);
      (if i.index in network then Deltas(network[i.index], row, row.operStatus == 5) else NOTHING.(linkUp := row.operStatus == 5)).(
        rxBytesTotal := after.totalIn, txBytesTotal := after.totalOut)
  }

  function Stored(network: map<int, CounterState>, i: Interface): CounterState
    requires i.row.Some?
  {
    if i.index in network then NextState(network[i.index], i.row.value) else FirstState(i.row.value)
  }

  function Visit(p: Progress, i: Interface): Progress {
    if i.loopback then p
    else
      Progress(
        if i.row.Some? then p.network[i.index := Stored(p.network, i)] else p.network,
        p.metrics + [Item(i.key, MetricOf(p.network, i))])
  }

  function Round(network: map<int, CounterState>, interfaces: seq<Interface>): Progress {
    if interfaces == [] then Progress(network, [])
    else Visit(Round(network, interfaces[..|interfaces| - 1]), interfaces[|interfaces| - 1])
  }

  class Collector {
    var network: map<int, CounterState>

    constructor ()
      ensures network == map[]
    {
      network := map[];
    }

    /** `collectNetworkInterfaces`, as far as counters go. */
    method CollectNetworkInterfaces(interfaces: seq<Interface>) returns (metrics: seq<Item<NetworkMetrics>>)
      modifies this
      ensures Progress(network, metrics) == Round(old(network), interfaces)
    {
      hide Deltas, NextState, FirstState;
      metrics := [];
      for n := 0 to |interfaces|
        invariant Progress(network, metrics) == Round(old(network), interfaces[..n])
      {
        assert interfaces[..n + 1][..n] == interfaces[..n];
        var item := interfaces[n];
        if item.loopback {
          continue;
        }
        var metric := NOTHING.(linkUp := item.up);
        if item.row.Some? {
          var row := item.row.value;
          metric := NOTHING.(linkUp := row.operStatus == 5);
          var state;
          if item.index in network {
            metric := Deltas(network[item.index], row, row.operStatus == 5);
            state := NextState(network[item.index], row);
          } else {
            state := FirstState(row);
          }
          network := network[item.index := state];
          metric := metric.(rxBytesTotal := state.totalIn, txBytesTotal := state.totalOut);
        }
        metrics := metrics + [Item(item.key, metric)];
      }
      assert interfaces[..|interfaces|] == interfaces;
    }
  }

  // ---- the readings of one interface over a run ----

  function InOctets(row: IfRow): U32 { row.inOctets }

  function OutOctets(row: IfRow): U32 { row.outOctets }

  /** The reading this interface adds to those of `index`. */
  function Reading(i: Interface, index: int, counter: IfRow -> U32): seq<U32> {
    if !i.loopback && i.index == index && i.row.Some? then [counter(i.row.value)] else []
  }

  function Readings(interfaces: seq<Interface>, index: int, counter: IfRow -> U32): seq<U32> {
    if interfaces == [] then []
    else
      var last := interfaces[|interfaces| - 1];
      Readings(interfaces[..|interfaces| - 1], index, counter) + Reading(last, index, counter)
  }

  function AllReadings(rounds: seq<seq<Interface>>, index: int, counter: IfRow -> U32): seq<U32> {
    if rounds == [] then []
    else AllReadings(rounds[..|rounds| - 1], index, counter) + Readings(rounds[|rounds| - 1], index, counter)
  }

  function After(rounds: seq<seq<Interface>>): map<int, CounterState> {
    if rounds == [] then map[] else Round(After(rounds[..|rounds| - 1]), rounds[|rounds| - 1]).network
  }

  /** The 64-bit total after these raw readings. */
  function TotalOf(readings: seq<U32>): U64
    requires readings != []
  {
    var n := |readings| - 1;
    if n == 0 then readings[0] else Add64(TotalOf(readings[..n]), CounterDelta32(readings[n], readings[n - 1]))
  }

  ghost predicate Follows(last: U32, total: U64, readings: seq<U32>) {
    readings != [] && last == readings[|readings| - 1] && total == TotalOf(readings)
  }

  lemma OneReading(readings: seq<U32>, last: U32, total: U64, r: U32)
    requires Follows(last, total, readings)
    ensures Follows(r, Add64(total, CounterDelta32(r, last)), readings + [r])
  {
    assert (readings + [r])[..|readings|] == readings;
  }

  lemma FirstReading(r: U32)
    ensures Follows(r, r, [r])
  {}

  // ---- what a delta is ----

  /** The state left by reading this row, first or not. */
  ghost predicate LeftBy(s: CounterState, row: IfRow) {
    s == FirstState(row) || exists t :: s == NextState(t, row)
  }

  function Diff32(a: int, b: int): nat { (a - b) % TWO_32 }

  /** Every reported delta is the difference of the two rows modulo 2^32, for packet sums as if they never wrapped. */
  lemma DeltasAreDifferences(s: CounterState, before: IfRow, row: IfRow, up: bool)
    requires LeftBy(s, before)
    ensures Deltas(s, row, up) == NetworkMetrics(
      up, 0, 0, Diff32(row.inOctets, before.inOctets), Diff32(row.outOctets, before.outOctets),
      Diff32(row.inUcast + row.inNUcast, before.inUcast + before.inNUcast),
      Diff32(row.outUcast + row.outNUcast, before.outUcast + before.outNUcast),
      Diff32(row.inErrors, before.inErrors), Diff32(row.outErrors, before.outErrors),
      Diff32(row.inDiscards, before.inDiscards), Diff32(row.outDiscards, before.outDiscards))
  {
    LeftFields(s, before);
    hide LeftBy, CounterDelta32;
    WrappedDifference(row.inUcast + row.inNUcast, before.inUcast + before.inNUcast);
    WrappedDifference(row.outUcast + row.outNUcast, before.outUcast + before.outNUcast);
  }

  lemma LeftFields(s: CounterState, before: IfRow)
    requires LeftBy(s, before)
    ensures s.inOctets == before.inOctets && s.outOctets == before.outOctets
    ensures s.inPackets == (before.inUcast + before.inNUcast) % TWO_32 && s.outPackets == (before.outUcast + before.outNUcast) % TWO_32
    ensures s.inErrors == before.inErrors && s.outErrors == before.outErrors
    ensures s.inDiscards == before.inDiscards && s.outDiscards == before.outDiscards
  {
    hide CounterDelta32;
  }

  lemma WrappedDifference(a: nat, b: nat)
    ensures (a % TWO_32 - b % TWO_32) % TWO_32 == (a - b) % TWO_32
  {
    var p, q := a / TWO_32, b / TWO_32;
    assert a == TWO_32 * p + a % TWO_32 && b == TWO_32 * q + b % TWO_32;
    assert a - b == (a % TWO_32 - b % TWO_32) + TWO_32 * (p - q);
    ModMultiple(a % TWO_32 - b % TWO_32, p - q);
  }

  // ---- what the total is ----

  /** True counts behind raw readings: they never fall, and grow by less than 2^32 between readings. */
  ghost predicate Behind(counts: seq<nat>, readings: seq<U32>) {
    && |counts| == |readings|
    && (forall i :: 0 <= i < |counts| ==> readings[i] == counts[i] % TWO_32)
    && (forall i :: 0 < i < |counts| ==> counts[i - 1] <= counts[i] < counts[i - 1] + TWO_32)
  }

  lemma ModKeeps(a: int, b: int)
    ensures (a % TWO_64 + b) % TWO_32 == (a + b) % TWO_32
  {
    var q := a / TWO_64;
    assert a == TWO_64 * q + a % TWO_64;
    assert a + b == (a % TWO_64 + b) + TWO_32 * (TWO_32 * q);
    ModMultiple(a % TWO_64 + b, TWO_32 * q);
  }

  lemma ModMultiple(x: int, k: int)
    ensures (x + TWO_32 * k) % TWO_32 == x % TWO_32
  {}

  /** The total stays congruent to the last raw reading modulo 2^32, whatever was read. */
  lemma {:induction false} TotalIsCongruent(readings: seq<U32>)
    requires readings != []
    ensures TotalOf(readings) % TWO_32 == readings[|readings| - 1]
  {
    var n := |readings| - 1;
    if n > 0 {
      TotalIsCongruent(readings[..n]);
      var t, d := TotalOf(readings[..n]), CounterDelta32(readings[n], readings[n - 1]);
      assert readings[..n][n - 1] == readings[n - 1];
      assert TotalOf(readings) == (t + d) % TWO_64 && t % TWO_32 == readings[n - 1];
      hide TotalOf, CounterDelta32;
      ModKeeps(t + d, 0);
      DeltaReaches(t, readings[n - 1], readings[n]);
    }
  }

  lemma DeltaReaches(t: nat, previous: U32, current: U32)
    requires t % TWO_32 == previous
    ensures (t + CounterDelta32(current, previous)) % TWO_32 == current
  {
    var q := t / TWO_32;
    assert t == TWO_32 * q + previous;
    if current >= previous {
      ModMultiple(current, q);
    } else {
      ModMultiple(current, q + 1);
    }
  }

  /** A delta is the true increment, so the total is the true count less what had wrapped before the first reading. */
  lemma {:induction false} TotalIsTrueGrowth(counts: seq<nat>, readings: seq<U32>)
    requires Behind(counts, readings) && readings != []
    ensures TotalOf(readings) == (counts[|counts| - 1] - (counts[0] - counts[0] % TWO_32)) % TWO_64
  {
    hide CounterDelta32;
    var n := |readings| - 1;
    if n == 0 {
      assert counts[0] % TWO_32 < TWO_64;
    } else {
      TotalIsTrueGrowth(counts[..n], readings[..n]);
      assert counts[..n][n - 1] == counts[n - 1] && counts[..n][0] == counts[0];
      assert readings[n] == counts[n] % TWO_32 && readings[n - 1] == counts[n - 1] % TWO_32;
      assert TotalOf(readings) == Add64(TotalOf(readings[..n]), CounterDelta32(readings[n], readings[n - 1]));
      assert counts[n - 1] <= counts[n] < counts[n - 1] + TWO_32;
      hide TotalOf, Behind;
      GrowthStep(TotalOf(readings[..n]), counts[0] - counts[0] % TWO_32, counts[n - 1], counts[n]);
    }
  }

  lemma GrowthStep(total: U64, base: int, before: nat, after: nat)
    requires total == (before - base) % TWO_64 && before <= after < before + TWO_32
    ensures Add64(total, CounterDelta32(after % TWO_32, before % TWO_32)) == (after - base) % TWO_64
  {
    hide CounterDelta32;
    DeltaIsIncrement(before, after);
    AddThenMod(before - base, after - before);
  }

  lemma DeltaIsIncrement(before: nat, after: nat)
    requires before <= after < before + TWO_32
    ensures CounterDelta32(after % TWO_32, before % TWO_32) == after - before
  {
    var p, q := before / TWO_32, after / TWO_32;
    assert before == TWO_32 * p + before % TWO_32 && after == TWO_32 * q + after % TWO_32;
    assert q == p || q == p + 1;
  }

  lemma AddThenMod(a: int, d: nat)
    ensures (a % TWO_64 + d) % TWO_64 == (a + d) % TWO_64
  {
    var q := a / TWO_64;
    assert a == TWO_64 * q + a % TWO_64;
    assert (a + d) == (a % TWO_64 + d) + TWO_64 * q;
    ModMultiple64(a % TWO_64 + d, q);
  }

  lemma ModMultiple64(x: int, k: int)
    ensures (x + TWO_64 * k) % TWO_64 == x % TWO_64
  {}

  /** When the count starts and ends in range, the total is the true count exactly. */
  lemma TotalIsTrueCount(counts: seq<nat>, readings: seq<U32>)
    requires Behind(counts, readings) && readings != [] && counts[|counts| - 1] < TWO_64
    ensures TotalOf(readings) == counts[|counts| - 1] <==> counts[0] < TWO_32
  {
    TotalIsTrueGrowth(counts, readings);
    CountsGrow(counts, readings, |counts| - 1);
    hide TotalOf, Behind;
    BaseOf(counts[0]);
    var growth := counts[|counts| - 1] - (counts[0] - counts[0] % TWO_32);
    assert 0 <= growth < TWO_64;
    assert growth % TWO_64 == growth;
  }

  lemma BaseOf(c: nat)
    ensures c - c % TWO_32 >= 0 && (c - c % TWO_32 == 0 <==> c < TWO_32)
  {}

  lemma {:induction false} CountsGrow(counts: seq<nat>, readings: seq<U32>, i: nat)
    requires Behind(counts, readings) && i < |counts|
    ensures counts[0] <= counts[i]
  {
    if i > 0 {
      CountsGrow(counts, readings, i - 1);
    }
  }

  function DeltaSum(readings: seq<U32>): nat {
    if |readings| < 2 then 0
    else
      var n := |readings| - 1;
      DeltaSum(readings[..n]) + CounterDelta32(readings[n], readings[n - 1])
  }

  /** The reported deltas add up to the growth of the total. */
  lemma {:induction false} DeltasSumToGrowth(readings: seq<U32>)
    requires readings != []
    ensures TotalOf(readings) == (readings[0] + DeltaSum(readings)) % TWO_64
  {
    var n := |readings| - 1;
    if n > 0 {
      DeltasSumToGrowth(readings[..n]);
      AddThenMod(readings[0] + DeltaSum(readings[..n]), CounterDelta32(readings[n], readings[n - 1]));
    }
  }

  /** The two directions of an interface. */
  datatype Side = Received | Sent

  function CounterOf(side: Side): IfRow -> U32 {
    if side.Received? then InOctets else OutOctets
  }

  function DeltaOn(side: Side, m: NetworkMetrics): nat {
    if side.Received? then m.rxBytesDelta else m.txBytesDelta
  }

  function TotalOn(side: Side, s: CounterState): U64 {
    if side.Received? then s.totalIn else s.totalOut
  }

  function LastOn(side: Side, s: CounterState): U32 {
    if side.Received? then s.inOctets else s.outOctets
  }

  /** The deltas of one interface as they are reported. */
  function ReportedBy(network: map<int, CounterState>, i: Interface, index: int, side: Side): nat {
    if !i.loopback && i.index == index then DeltaOn(side, MetricOf(network, i)) else 0
  }

  function Reported(network: map<int, CounterState>, interfaces: seq<Interface>, index: int, side: Side): nat {
    if interfaces == [] then 0
    else
      var n := |interfaces| - 1;
      var last := interfaces[n];
      Reported(network, interfaces[..n], index, side)
      + ReportedBy(Round(network, interfaces[..n]).network, last, index, side)
  }

  function AllReported(rounds: seq<seq<Interface>>, index: int, side: Side): nat {
    if rounds == [] then 0
    else
      var n := |rounds| - 1;
      AllReported(rounds[..n], index, side) + Reported(After(rounds[..n]), rounds[n], index, side)
  }

  ghost predicate TracksSide(network: map<int, CounterState>, index: int, side: Side, readings: seq<U32>) {
    if index !in network then readings == [] else Follows(LastOn(side, network[index]), TotalOn(side, network[index]), readings)
  }

  lemma VisitTracksSide(p: Progress, i: Interface, index: int, side: Side, readings: seq<U32>)
    requires TracksSide(p.network, index, side, readings)
    ensures TracksSide(Visit(p, i).network, index, side, readings + Reading(i, index, CounterOf(side)))
  {
    hide TotalOf, MetricOf, CounterDelta32, Follows;
    var counter := CounterOf(side);
    if !i.loopback && i.index == index && i.row.Some? {
      var r := counter(i.row.value);
      if index in p.network {
        OneReading(readings, LastOn(side, p.network[index]), TotalOn(side, p.network[index]), r);
      } else {
        FirstReading(r);
        assert readings + [r] == [r];
      }
    } else {
      assert readings + [] == readings;
    }
  }

  lemma OneReported(network: map<int, CounterState>, i: Interface, index: int, side: Side, readings: seq<U32>)
    requires TracksSide(network, index, side, readings)
    ensures DeltaSum(readings) + ReportedBy(network, i, index, side) == DeltaSum(readings + Reading(i, index, CounterOf(side)))
  {
    hide Deltas, CounterDelta32, TotalOf, MetricOf;
    ReportedDelta(network, i, side);
    if !i.loopback && i.index == index && i.row.Some? {
      DeltaSumMore(readings, CounterOf(side)(i.row.value));
    } else {
      assert readings + [] == readings;
    }
  }

  lemma ReportedDelta(network: map<int, CounterState>, i: Interface, side: Side)
    ensures i.row.None? ==> DeltaOn(side, MetricOf(network, i)) == 0
    ensures i.row.Some? ==> DeltaOn(side, MetricOf(network, i))
                            == if i.index in network then CounterDelta32(CounterOf(side)(i.row.value), LastOn(side, network[i.index])) else 0
  {}

  lemma {:induction false} RoundReports(network: map<int, CounterState>, interfaces: seq<Interface>, index: int, side: Side, readings: seq<U32>)
    requires TracksSide(network, index, side, readings)
    ensures var now := readings + Readings(interfaces, index, CounterOf(side));
      && TracksSide(Round(network, interfaces).network, index, side, now)
      && DeltaSum(readings) + Reported(network, interfaces, index, side) == DeltaSum(now)
  {
    hide Visit, TracksSide, MetricOf, DeltaSum, CounterOf;
    var counter := CounterOf(side);
    if interfaces == [] {
      assert readings + [] == readings;
    } else {
      var n := |interfaces| - 1;
      var p, i := interfaces[..n], interfaces[n];
      RoundReports(network, p, index, side, readings);
      var a := readings + Readings(p, index, counter);
      var before := Round(network, p);
      VisitTracksSide(before, i, index, side, a);
      assert Reported(network, interfaces, index, side) == Reported(network, p, index, side) + ReportedBy(before.network, i, index, side);
      assert readings + Readings(interfaces, index, counter) == a + Reading(i, index, counter);
      assert Round(network, interfaces) == Visit(before, i);
      hide Reported, Readings, Round;
      OneReported(before.network, i, index, side, a);
    }
  }

  lemma DeltaSumMore(a: seq<U32>, r: U32)
    ensures DeltaSum(a + [r]) == DeltaSum(a) + if a == [] then 0 else CounterDelta32(r, a[|a| - 1])
  {
    assert (a + [r])[..|a|] == a;
  }

  /** The state follows the interface's own readings, however many rounds it was missing from, and so do the deltas. */
  lemma {:induction false} StateFollowsReadings(rounds: seq<seq<Interface>>, index: int, side: Side)
    ensures TracksSide(After(rounds), index, side, AllReadings(rounds, index, CounterOf(side)))
    ensures AllReported(rounds, index, side) == DeltaSum(AllReadings(rounds, index, CounterOf(side)))
  {
    hide CounterOf;
    if rounds != [] {
      var n := |rounds| - 1;
      StateFollowsReadings(rounds[..n], index, side);
      RoundReports(After(rounds[..n]), rounds[n], index, side, AllReadings(rounds[..n], index, CounterOf(side)));
    }
  }

  /**
   * After any sequence of rounds, with the interface present or missing and whatever it counted: in both directions
   * its 64-bit total is congruent to the last raw value and has grown by the sum of the reported deltas.
   */
  lemma TotalsGrowAsReported(rounds: seq<seq<Interface>>, index: int, side: Side)
    requires index in After(rounds)
    ensures var total, readings := TotalOn(side, After(rounds)[index]), AllReadings(rounds, index, CounterOf(side));
      && readings != [] && total % TWO_32 == readings[|readings| - 1]
      && total == (readings[0] + AllReported(rounds, index, side)) % TWO_64
  {
    hide After, AllReported, AllReadings, TotalOf, DeltaSum, CounterOf;
    StateFollowsReadings(rounds, index, side);
    var readings := AllReadings(rounds, index, CounterOf(side));
    TotalIsCongruent(readings);
    DeltasSumToGrowth(readings);
  }

  /** And it is the true count, in range and grown by less than 2^32 a reading, exactly when that began below 2^32. */
  lemma TotalsAreRight(rounds: seq<seq<Interface>>, index: int, side: Side, counts: seq<nat>)
    requires index in After(rounds)
    requires Behind(counts, AllReadings(rounds, index, CounterOf(side))) && counts != [] && counts[|counts| - 1] < TWO_64
    ensures TotalOn(side, After(rounds)[index]) == counts[|counts| - 1] <==> counts[0] < TWO_32
  {
    hide After, AllReadings, TotalOf, Behind, CounterOf;
    StateFollowsReadings(rounds, index, side);
    TotalIsTrueCount(counts, AllReadings(rounds, index, CounterOf(side)));
  }

  // ---- what a round reports ----

  /** The rows an interface was read with, in order. */
  function RowsIn(interfaces: seq<Interface>, index: int): seq<IfRow> {
    if interfaces == [] then []
    else
      var i := interfaces[|interfaces| - 1];
      RowsIn(interfaces[..|interfaces| - 1], index) + if !i.loopback && i.index == index && i.row.Some? then [i.row.value] else []
  }

  function RowsOver(rounds: seq<seq<Interface>>, index: int): seq<IfRow> {
    if rounds == [] then [] else RowsOver(rounds[..|rounds| - 1], index) + RowsIn(rounds[|rounds| - 1], index)
  }

  /** The state of an interface is the one its last row left. */
  ghost predicate LeftByLast(network: map<int, CounterState>, index: int, rows: seq<IfRow>) {
    (index in network <==> rows != []) && (rows != [] ==> LeftBy(network[index], rows[|rows| - 1]))
  }

  lemma {:induction false} RoundLeaves(network: map<int, CounterState>, interfaces: seq<Interface>, index: int, rows: seq<IfRow>)
    requires LeftByLast(network, index, rows)
    ensures LeftByLast(Round(network, interfaces).network, index, rows + RowsIn(interfaces, index))
  {
    hide FirstState, NextState, MetricOf;
    if interfaces == [] {
      assert rows + [] == rows;
    } else {
      var n := |interfaces| - 1;
      RoundLeaves(network, interfaces[..n], index, rows);
      var i, before := interfaces[n], rows + RowsIn(interfaces[..n], index);
      assert rows + RowsIn(interfaces, index) == before + if !i.loopback && i.index == index && i.row.Some? then [i.row.value] else [];
      if !i.loopback && i.index == index && i.row.Some? {
        StoredIsLeft(Round(network, interfaces[..n]).network, i);
      }
    }
  }

  lemma StoredIsLeft(network: map<int, CounterState>, i: Interface)
    requires i.row.Some?
    ensures LeftBy(Stored(network, i), i.row.value)
  {
    hide FirstState, NextState;
  }

  lemma {:induction false} LastRowLeaves(rounds: seq<seq<Interface>>, index: int)
    ensures LeftByLast(After(rounds), index, RowsOver(rounds, index))
  {
    hide LeftByLast, Round;
    if rounds == [] {
      assert LeftByLast(map[], index, []) by { NothingLeft(index); }
    } else {
      var n := |rounds| - 1;
      LastRowLeaves(rounds[..n], index);
      RoundLeaves(After(rounds[..n]), rounds[n], index, RowsOver(rounds[..n], index));
    }
  }

  lemma NothingLeft(index: int)
    ensures LeftByLast(map[], index, [])
  {}

  /** One metric for each interface that is no loopback, in order. */
  lemma {:induction false} RoundReportsEach(network: map<int, CounterState>, interfaces: seq<Interface>, n: nat)
    requires n < |interfaces| && !interfaces[n].loopback
    ensures var k := |Round(network, interfaces[..n]).metrics|;
      var metrics := Round(network, interfaces).metrics;
      k < |metrics| && metrics[k] == Item(interfaces[n].key, MetricOf(Round(network, interfaces[..n]).network, interfaces[n]))
    decreases |interfaces|
  {
    hide MetricOf;
    var m := |interfaces| - 1;
    if n < m {
      assert interfaces[..m][..n] == interfaces[..n];
      RoundReportsEach(network, interfaces[..m], n);
    }
  }

  lemma {:induction false} MetricCount(network: map<int, CounterState>, interfaces: seq<Interface>)
    ensures |Round(network, interfaces).metrics| == |Others(interfaces)|
  {
    hide MetricOf;
    if interfaces != [] {
      MetricCount(network, interfaces[..|interfaces| - 1]);
    }
  }

  /** The interfaces that are no loopback. */
  function Others(interfaces: seq<Interface>): seq<Interface> {
    if interfaces == [] then []
    else Others(interfaces[..|interfaces| - 1]) + if interfaces[|interfaces| - 1].loopback then [] else [interfaces[|interfaces| - 1]]
  }

  /** A metric without counts. */
  ghost predicate NoDeltas(m: NetworkMetrics) {
    && m.rxBytesDelta == 0 && m.txBytesDelta == 0 && m.rxPacketsDelta == 0 && m.txPacketsDelta == 0
    && m.rxErrorsDelta == 0 && m.txErrorsDelta == 0 && m.rxDroppedDelta == 0 && m.txDroppedDelta == 0
  }

  /** Every delta is the difference of this row and an earlier one modulo 2^32. */
  ghost predicate DifferencesOf(m: NetworkMetrics, row: IfRow, before: IfRow) {
    && m.rxBytesDelta == Diff32(row.inOctets, before.inOctets) && m.txBytesDelta == Diff32(row.outOctets, before.outOctets)
    && m.rxPacketsDelta == Diff32(row.inUcast + row.inNUcast, before.inUcast + before.inNUcast)
    && m.txPacketsDelta == Diff32(row.outUcast + row.outNUcast, before.outUcast + before.outNUcast)
    && m.rxErrorsDelta == Diff32(row.inErrors, before.inErrors) && m.txErrorsDelta == Diff32(row.outErrors, before.outErrors)
    && m.rxDroppedDelta == Diff32(row.inDiscards, before.inDiscards) && m.txDroppedDelta == Diff32(row.outDiscards, before.outDiscards)
  }

  /**
   * After any rounds, what a round reports of an interface: without a row, that it is up or not and nothing else; with
   * one, whether it is operational, its totals after this row, and the differences to the last row it was read with,
   * if there was one.
   */
  lemma MetricSays(rounds: seq<seq<Interface>>, interfaces: seq<Interface>, n: nat)
    requires n < |interfaces| && !interfaces[n].loopback
    ensures var i, network := interfaces[n], Round(After(rounds), interfaces[..n]).network;
      var m, rows := MetricOf(network, i), RowsOver(rounds, i.index) + RowsIn(interfaces[..n], i.index);
      if i.row.None? then m.linkUp == i.up && NoDeltas(m) && m.rxBytesTotal == 0 && m.txBytesTotal == 0
      else
        var after := Round(After(rounds), interfaces[..n + 1]).network;
        && m.linkUp == (i.row.value.operStatus == 5)
        && i.index in after && m.rxBytesTotal == after[i.index].totalIn && m.txBytesTotal == after[i.index].totalOut
        && (rows == [] ==> NoDeltas(m))
        && (rows != [] ==> DifferencesOf(m, i.row.value, rows[|rows| - 1]))
  {
    var i, network := interfaces[n], Round(After(rounds), interfaces[..n]).network;
    var rows := RowsOver(rounds, i.index) + RowsIn(interfaces[..n], i.index);
    LastRowLeaves(rounds, i.index);
    RoundLeaves(After(rounds), interfaces[..n], i.index, RowsOver(rounds, i.index));
    assert interfaces[..n + 1][..n] == interfaces[..n];
    if i.row.Some? && rows != [] {
      hide LeftBy, Deltas, NextState, FirstState;
      DeltasAreDifferences(network[i.index], rows[|rows| - 1], i.row.value, i.row.value.operStatus == 5);
    }
  }
}
