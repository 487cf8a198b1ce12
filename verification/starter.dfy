/**
 * The selection rules of the starter's tick: which minutes make up the
 * dynamic (current, partial) hour and which hourly periods form the
 * breakout horizon, both read from the minute of the hour. `doTick`
 * reads the clock twice; the two readings are separate parameters here.
 */
module Starter {
  import opened Wrappers
  import opened Candles
  import opened HoursRecords
  import opened Slots
  import opened HourAggregates
  import opened HourVolumes

  /** `AGR_H_COUNT`: hourly periods of the breakout horizon besides the dynamic hour. */
  const AggregateHours: nat := 11
  /** Historical periods read for the hourly volume table. */
  const VolumeHours: nat := 10

  /** `FILES_TO_WORK`: the dynamic hour covers the minutes elapsed, and the newest minute at minute 0. */
  function FilesToWork(minute: nat): (n: nat)
    ensures n >= 1
    ensures minute > 0 ==> n == minute
    ensures n == 1 <==> minute <= 1
  {
    if minute == 0 then 1 else minute
  }

  /** `count`: the hourly periods read, one more at minute 0. */
  function HourCount(minute: nat): (n: nat)
    ensures n == AggregateHours <==> minute != 0
    ensures minute == 0 ==> n == AggregateHours + 1
  {
    if minute == 0 then AggregateHours + 1 else AggregateHours
  }

  /** The periods fed to the 12-hour maximum: the dynamic hour joins the hourly periods only when `count` is eleven. */
  function Horizon(minute: nat, hourly: seq<seq<HoursRecord>>, dynamic: seq<HoursRecord>): (h: seq<seq<HoursRecord>>)
    ensures minute != 0 ==> h == Recent(hourly, AggregateHours) + [dynamic]
    ensures minute == 0 ==> h == Recent(hourly, AggregateHours + 1)
  {
    var periods := Recent(hourly, HourCount(minute));
    if HourCount(minute) == AggregateHours then periods + [dynamic] else periods
  }

  /** How a tick ends. */
  datatype Tick =
    | NoDynamic                // no minute data: the tick returns False
    | DynamicRaises            // a zero open price: the division raises out of the tick
    | NoHourly                 // no hourly period: the tick returns
    | Aggregated(dynamic: seq<HoursRecord>, horizon: seq<seq<HoursRecord>>,
                 maxHighs: map<string, real>, volumes: Option<VolumeTable>)

  /**
   * The selection part of `doTick`, over the minute window, the hourly
   * window and the two minute-of-hour readings.
   */
  function DoTick(minutes: seq<seq<Candle>>, hourly: seq<seq<HoursRecord>>, minute1: nat, minute2: nat): (t: Tick)
    ensures t.NoDynamic? <==> Dynamic1h(Recent(minutes, FilesToWork(minute1))).NoData?
    ensures t.DynamicRaises? <==> Dynamic1h(Recent(minutes, FilesToWork(minute1))).ZeroOpen?
    ensures t.NoHourly? <==> (Dynamic1h(Recent(minutes, FilesToWork(minute1))).Records?
                              && |Recent(hourly, HourCount(minute2))| == 0)
    ensures t.Aggregated? ==> && t.dynamic == Dynamic1h(Recent(minutes, FilesToWork(minute1))).records
                              && t.horizon == Horizon(minute2, hourly, t.dynamic)
                              && IsMaxMap(t.maxHighs, Flatten(t.horizon))
                              && t.volumes == Aggregate10h(t.dynamic, Recent(hourly, VolumeHours))
  {
    match Dynamic1h(Recent(minutes, FilesToWork(minute1)))
    case NoData => NoDynamic
    case ZeroOpen => DynamicRaises
    case Records(dynamic) =>
      if |Recent(hourly, HourCount(minute2))| == 0 then NoHourly
      else
        var horizon := Horizon(minute2, hourly, dynamic);
        assert |horizon| > 0;
        Aggregated(dynamic, horizon, Aggregate12h(horizon).value, Aggregate10h(dynamic, Recent(hourly, VolumeHours)))
  }

  /** Over a window whose first `count` slots are all filled, the reader returns exactly those slots. */
  lemma RecentOfFilled<T(!new)>(w: seq<seq<T>>, count: nat)
    requires count <= |w| && forall i | 0 <= i < count :: |w[i]| > 0
    ensures Recent(w, count) == w[..count]
  {
    NonEmptyOfPrefix(w[..count], count);
  }

  /** With a filled minute window the dynamic hour covers exactly the minutes elapsed (one at minute 0). */
  lemma DynamicWindowSize(minutes: seq<seq<Candle>>, minute: nat)
    requires FilesToWork(minute) <= |minutes| && forall i | 0 <= i < |minutes| :: |minutes[i]| > 0
    ensures Recent(minutes, FilesToWork(minute)) == minutes[..FilesToWork(minute)]
    ensures |Recent(minutes, FilesToWork(minute))| == if minute == 0 then 1 else minute
  {
    RecentOfFilled(minutes, FilesToWork(minute));
  }

  /**
   * With twelve filled hourly periods the horizon is always twelve periods:
   * the eleven newest plus the dynamic hour, or at minute 0 the twelve newest.
   */
  lemma HorizonSpansTwelve(hourly: seq<seq<HoursRecord>>, minute: nat, dynamic: seq<HoursRecord>)
    requires |hourly| >= AggregateHours + 1 && forall i | 0 <= i <= AggregateHours :: |hourly[i]| > 0
    ensures |Horizon(minute, hourly, dynamic)| == AggregateHours + 1
    ensures minute != 0 ==> Horizon(minute, hourly, dynamic) == hourly[..AggregateHours] + [dynamic]
    ensures minute == 0 ==> Horizon(minute, hourly, dynamic) == hourly[..AggregateHours + 1]
  {
    RecentOfFilled(hourly, AggregateHours);
    RecentOfFilled(hourly, AggregateHours + 1);
  }
}
