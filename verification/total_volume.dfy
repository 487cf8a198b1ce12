/**
 * `total_volume_24h`: the traded volume of each symbol summed over the new
 * hour and the previous 23 hours (24 at minute 0).
 */
module TotalVolume {
  import opened HoursRecords
  import opened Slots

  /** `TOTAL_V_H_COUNT`. */
  const PreviousHours: nat := 23

  /** The symbols of a list of records. */
  function SymbolsOf(rs: seq<HoursRecord>): set<string> {
    set r | r in rs :: r.symbol
  }

  /** The summed `total_volume` of the records of `symbol`. */
  function HourVolume(rs: seq<HoursRecord>, symbol: string): real {
    if |rs| == 0 then 0.0
    else
      var last := rs[|rs| - 1];
      HourVolume(rs[..|rs| - 1], symbol) + (if last.symbol == symbol then last.totalVolume else 0.0)
  }

  /** `process_single_hour`: every symbol of the hour mapped to its summed volume; duplicates add up. */
  function SingleHour(rs: seq<HoursRecord>): (m: map<string, real>)
    ensures m.Keys == SymbolsOf(rs)
    ensures forall s | s in m :: m[s] == HourVolume(rs, s)
  {
    if |rs| == 0 then map[]
    else
      var last := rs[|rs| - 1];
      var prev := SingleHour(rs[..|rs| - 1]);
      SingleHourStep(rs, prev);
      prev[last.symbol := Get(prev, last.symbol) + last.totalVolume]
  }

  /** One more record: its volume is added to its symbol's running sum. */
  lemma SingleHourStep(rs: seq<HoursRecord>, prev: map<string, real>)
    requires |rs| > 0
    requires prev.Keys == SymbolsOf(rs[..|rs| - 1])
    requires forall s | s in prev :: prev[s] == HourVolume(rs[..|rs| - 1], s)
    ensures var last := rs[|rs| - 1];
      var r := prev[last.symbol := Get(prev, last.symbol) + last.totalVolume];
      r.Keys == SymbolsOf(rs) && forall s | s in r :: r[s] == HourVolume(rs, s)
  {
    var init := rs[..|rs| - 1];
    var last := rs[|rs| - 1];
    SymbolsOfSnoc(rs);
    if last.symbol !in prev {
      HourVolumeAbsent(init, last.symbol);
    }
    var r := prev[last.symbol := Get(prev, last.symbol) + last.totalVolume];
    forall s | s in r ensures r[s] == HourVolume(rs, s) {
      assert HourVolume(rs, s) == HourVolume(init, s) + (if last.symbol == s then last.totalVolume else 0.0);
    }
  }

  lemma SymbolsOfSnoc(rs: seq<HoursRecord>)
    requires |rs| > 0
    ensures SymbolsOf(rs) == SymbolsOf(rs[..|rs| - 1]) + {rs[|rs| - 1].symbol}
  {
    var init := rs[..|rs| - 1];
    assert rs == init + [rs[|rs| - 1]];
  }

  /** Summing over a concatenation sums the parts. */
  lemma {:induction false} HourVolumeConcat(a: seq<HoursRecord>, b: seq<HoursRecord>, symbol: string)
    ensures HourVolume(a + b, symbol) == HourVolume(a, symbol) + HourVolume(b, symbol)
  {
    if |b| == 0 {
      assert a + b == a;
    } else {
      HourVolumeConcat(a, b[..|b| - 1], symbol);
      assert (a + b)[..|a + b| - 1] == a + b[..|b| - 1];
    }
  }

  /** A symbol without records has zero volume. */
  lemma {:induction false} HourVolumeAbsent(rs: seq<HoursRecord>, symbol: string)
    requires symbol !in SymbolsOf(rs)
    ensures HourVolume(rs, symbol) == 0.0
  {
    if |rs| > 0 {
      assert SymbolsOf(rs[..|rs| - 1]) <= SymbolsOf(rs);
      assert rs[|rs| - 1] in rs;
      HourVolumeAbsent(rs[..|rs| - 1], symbol);
    }
  }

  /** `dict.get(symbol, 0.0)`. */
  function Get(m: map<string, real>, s: string): real {
    if s in m then m[s] else 0.0
  }

  /** Adding one hour's sums into the running totals. */
  function AddInto(acc: map<string, real>, m: map<string, real>): (r: map<string, real>)
    ensures r.Keys == acc.Keys + m.Keys
    ensures forall s | s in r :: r[s] == Get(acc, s) + Get(m, s)
  {
    map s | s in acc.Keys + m.Keys :: Get(acc, s) + Get(m, s)
  }

  /** The aggregation loop over a list of hours. */
  function Totals(hours: seq<seq<HoursRecord>>): (r: map<string, real>)
    ensures r.Keys == SymbolsOf(Flatten(hours))
    ensures forall s | s in r :: r[s] == HourVolume(Flatten(hours), s)
  {
    if |hours| == 0 then map[]
    else
      var n := |hours| - 1;
      var prev := Totals(hours[..n]);
      FlattenSnoc(hours);
      var r := AddInto(prev, SingleHour(hours[n]));
      assert SymbolsOf(Flatten(hours)) == SymbolsOf(Flatten(hours[..n])) + SymbolsOf(hours[n]);
      forall s | s in r ensures r[s] == HourVolume(Flatten(hours), s) {
        HourVolumeConcat(Flatten(hours[..n]), hours[n], s);
        if s !in prev {
          HourVolumeAbsent(Flatten(hours[..n]), s);
        }
        if s !in SymbolsOf(hours[n]) {
          HourVolumeAbsent(hours[n], s);
        }
      }
      r
  }

  /** `request_count`: one more hour at minute 0. */
  function RequestCount(minute: nat): (n: nat)
    ensures minute == 0 ==> n == PreviousHours + 1
    ensures minute != 0 ==> n == PreviousHours
  {
    if minute == 0 then PreviousHours + 1 else PreviousHours
  }

  /**
   * `process_new_record`: empty when the window yields no previous hours or
   * fewer than requested; otherwise every symbol of the new or previous hours
   * mapped to its volume summed over all of them.
   */
  function ProcessNewRecord(newHour: seq<HoursRecord>, hourly: seq<seq<HoursRecord>>, minute: nat): (r: map<string, real>)
    ensures |Recent(hourly, RequestCount(minute))| != RequestCount(minute) ==> r == map[]
    ensures |Recent(hourly, RequestCount(minute))| == RequestCount(minute) ==>
      (var all := [newHour] + Recent(hourly, RequestCount(minute));
       r.Keys == SymbolsOf(Flatten(all)) && forall s | s in r :: r[s] == HourVolume(Flatten(all), s))
  {
    var previous := Recent(hourly, RequestCount(minute));
    if |previous| == 0 || |previous| != RequestCount(minute) then map[]
    else Totals([newHour] + previous)
  }

  /** The totals are a per-hour sum: the new hour's volume plus each previous hour's. */
  lemma {:induction false} TotalsSplit(newHour: seq<HoursRecord>, previous: seq<seq<HoursRecord>>, s: string)
    ensures HourVolume(Flatten([newHour] + previous), s) == HourVolume(newHour, s) + HourVolume(Flatten(previous), s)
  {
    FlattenCons(newHour, previous);
    HourVolumeConcat(newHour, Flatten(previous), s);
  }

  lemma {:induction false} FlattenCons<T(!new)>(x: seq<T>, s: seq<seq<T>>)
    ensures Flatten([x] + s) == x + Flatten(s)
    decreases |s|
  {
    if |s| == 0 {
      assert [x] + s == [x];
      FlattenSnoc([x]);
      assert [x][..0] == [];
    } else {
      var n := |s| - 1;
      FlattenCons(x, s[..n]);
      FlattenSnoc([x] + s);
      FlattenSnoc(s);
      assert ([x] + s)[..|[x] + s| - 1] == [x] + s[..n];
    }
  }
}
