/**
 * `aggregate_10h_volumes`: the table of hourly volumes per symbol that the
 * volume-surge rule compares against, keyed by 1-based period index (the
 * Python code's keys are the strings `total_volume_<index>`).
 */
module HourVolumes {
  import opened Wrappers
  import opened HoursRecords

  /** At most this many periods are tabled. */
  const VolumePeriods: nat := 10

  type VolumeTable = map<string, map<nat, real>>

  /** `table[symbol][index]`, or None when either key is missing. */
  function Lookup(t: VolumeTable, symbol: string, index: nat): Option<real> {
    if symbol in t && index in t[symbol] then Some(t[symbol][index]) else None
  }

  /** The volume of the last record of `symbol` in a period: later records overwrite earlier ones. */
  function LastVolume(period: seq<HoursRecord>, symbol: string): (v: Option<real>)
    ensures v.None? <==> forall j | 0 <= j < |period| :: period[j].symbol != symbol
  {
    if |period| == 0 then None
    else
      var r := period[|period| - 1];
      if r.symbol == symbol then Some(r.totalVolume) else LastVolume(period[..|period| - 1], symbol)
  }

  /** `table.setdefault(symbol, {})[index] = v`. */
  function Store(t: VolumeTable, symbol: string, index: nat, v: real): (r: VolumeTable)
    ensures r.Keys == t.Keys + {symbol}
    ensures forall s, k: nat :: Lookup(r, s, k) == if s == symbol && k == index then Some(v) else Lookup(t, s, k)
  {
    var row := if symbol in t then t[symbol] else map[];
    t[symbol := row[index := v]]
  }

  /** The inner loop: every record of `period` stored under `index`. */
  function StorePeriod(t: VolumeTable, index: nat, period: seq<HoursRecord>): (r: VolumeTable)
    ensures r.Keys == t.Keys + set j | 0 <= j < |period| :: period[j].symbol
    ensures forall s, k: nat :: (Lookup(r, s, k) ==
      if k == index && LastVolume(period, s).Some? then LastVolume(period, s) else Lookup(t, s, k))
  {
    if |period| == 0 then t
    else
      var init := period[..|period| - 1];
      var rec := period[|period| - 1];
      assert (set j | 0 <= j < |period| :: period[j].symbol) == (set j | 0 <= j < |init| :: init[j].symbol) + {rec.symbol} by {
        assert forall j | 0 <= j < |init| :: init[j] == period[j];
      }
      assert forall s | s != rec.symbol :: LastVolume(period, s) == LastVolume(init, s);
      Store(StorePeriod(t, index, init), rec.symbol, index, rec.totalVolume)
  }

  /** `for index, period in enumerate(periods, 1)`: the whole table. */
  function StoreAll(periods: seq<seq<HoursRecord>>): (r: VolumeTable)
    ensures forall s, k: nat :: Lookup(r, s, k) == if 1 <= k <= |periods| then LastVolume(periods[k - 1], s) else None
  {
    if |periods| == 0 then map[]
    else
      var n := |periods|;
      var prev := StoreAll(periods[..n - 1]);
      assert forall k | 0 <= k < n - 1 :: periods[..n - 1][k] == periods[k];
      StorePeriod(prev, n, periods[n - 1])
  }

  /** The number of periods tabled for `h` historical periods. */
  function TabledCount(h: nat): (m: nat)
    ensures m <= VolumePeriods && (h + 1 <= VolumePeriods ==> m == h + 1)
  {
    if h + 1 >= VolumePeriods then VolumePeriods else h + 1
  }

  /**
   * `aggregate_10h_volumes`: None without historical periods; otherwise the
   * last (at most ten) periods of `historical + [latest]` are tabled, so the
   * latest period always has the highest index and no index exceeds ten.
   */
  function Aggregate10h(latest: seq<HoursRecord>, historical: seq<seq<HoursRecord>>): (r: Option<VolumeTable>)
    ensures r.None? <==> |historical| == 0
    ensures r.Some? ==> forall s, k: nat | Lookup(r.value, s, k).Some? :: 1 <= k <= TabledCount(|historical|)
    ensures r.Some? ==> forall s :: Lookup(r.value, s, TabledCount(|historical|)) == LastVolume(latest, s)
    ensures r.Some? ==> forall s, k: nat | 1 <= k < TabledCount(|historical|) ::
      Lookup(r.value, s, k) == LastVolume(historical[|historical| - TabledCount(|historical|) + k], s)
  {
    if |historical| == 0 then None
    else
      var m := TabledCount(|historical|);
      var periods := (historical + [latest])[|historical| + 1 - m..];
      TabledPeriods(latest, historical, periods, m);
      Some(StoreAll(periods))
  }

  /** The tabled periods: the last `m - 1` historical periods, then the latest one. */
  lemma TabledPeriods(latest: seq<HoursRecord>, historical: seq<seq<HoursRecord>>, periods: seq<seq<HoursRecord>>, m: nat)
    requires 1 <= m <= |historical| + 1
    requires periods == (historical + [latest])[|historical| + 1 - m..]
    ensures |periods| == m && periods[m - 1] == latest
    ensures forall j | 0 <= j < m - 1 :: periods[j] == historical[|historical| - m + 1 + j]
  {
    var all := historical + [latest];
    var lo := |historical| + 1 - m;
    assert |periods| == m;
    assert periods[m - 1] == all[|historical|] == latest;
    forall j | 0 <= j < m - 1 ensures periods[j] == historical[lo + j] {
      assert periods[j] == all[lo + j];
    }
  }
}
