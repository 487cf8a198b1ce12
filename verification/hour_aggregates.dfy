/**
 * Hour-level aggregates of the analytics utilities: the "dynamic" partial
 * hour built from the newest minute slots, and the per-symbol highest price
 * over a set of hourly periods (the 12-hour breakout level).
 */
module HourAggregates {
  import opened Wrappers
  import opened Candles
  import opened Sorting
  import opened Slots
  import opened HoursRecords
  import opened MinuteVolumes
  import KlineWindow

  /** Symbols in order of first appearance (the insertion order of the grouping dict). */
  function Symbols(cs: seq<Candle>): (r: seq<string>)
    ensures forall i, j | 0 <= i < j < |r| :: r[i] != r[j]
    ensures forall s :: s in r <==> exists k | 0 <= k < |cs| :: cs[k].symbol == s
  {
    if |cs| == 0 then []
    else
      var init := cs[..|cs| - 1];
      var prev := Symbols(init);
      var s := cs[|cs| - 1].symbol;
      assert forall k | 0 <= k < |init| :: init[k] == cs[k];
      if s in prev then prev else prev + [s]
  }

  /** The candles of `symbol`, in listing order (`symbols_data[symbol]`). */
  function CandlesOf(cs: seq<Candle>, symbol: string): (r: seq<Candle>)
    ensures |r| <= |cs|
    ensures forall c :: c in r <==> c in cs && c.symbol == symbol
  {
    if |cs| == 0 then []
    else
      var c := cs[|cs| - 1];
      assert cs == cs[..|cs| - 1] + [c];
      CandlesOf(cs[..|cs| - 1], symbol) + (if c.symbol == symbol then [c] else [])
  }

  function MaxHigh(cs: seq<Candle>): (m: real)
    requires |cs| > 0
    ensures forall c | c in cs :: c.high <= m
    ensures exists c | c in cs :: c.high == m
  {
    if |cs| == 1 then cs[0].high
    else
      var rest := MaxHigh(cs[1..]);
      assert forall c | c in cs :: c == cs[0] || c in cs[1..];
      if cs[0].high > rest then cs[0].high else rest
  }

  function MinLow(cs: seq<Candle>): (m: real)
    requires |cs| > 0
    ensures forall c | c in cs :: m <= c.low
    ensures exists c | c in cs :: c.low == m
  {
    if |cs| == 1 then cs[0].low
    else
      var rest := MinLow(cs[1..]);
      assert forall c | c in cs :: c == cs[0] || c in cs[1..];
      if cs[0].low < rest then cs[0].low else rest
  }

  /**
   * The record of one symbol with at least two candles: open of the earliest
   * candle and close of the latest (by open time, stable), highest high,
   * lowest low and summed quote volume. The other statistics `calculate_1h_dynamic`
   * computes are dropped by `HoursRecord.from_dict`.
   */
  function SymbolRecord(cs: seq<Candle>, symbol: string): (h: HoursRecord)
    requires |CandlesOf(cs, symbol)| >= 2
    ensures h.symbol == symbol
    ensures forall c | c in cs && c.symbol == symbol :: h.low <= c.low && c.high <= h.high
    ensures exists c | c in cs && c.symbol == symbol :: c.high == h.high
    ensures exists c | c in cs && c.symbol == symbol :: c.low == h.low
    ensures exists c | c in cs && c.symbol == symbol :: c.open == h.open && forall d | d in cs && d.symbol == symbol :: c.openTime <= d.openTime
    ensures exists c | c in cs && c.symbol == symbol :: c.close == h.close && forall d | d in cs && d.symbol == symbol :: d.openTime <= c.openTime
    ensures h.totalVolume == VolumeOf(cs, symbol)
  {
    var group := CandlesOf(cs, symbol);
    var sorted := SortBy(group, KlineWindow.OpenTimeKey);
    SortedEnds(group, sorted);
    CandlesOfVolume(cs, symbol);
    HoursRecord(symbol, sorted[0].open, sorted[|sorted| - 1].close, MaxHigh(group), MinLow(group), VolumeOf(group, symbol))
  }

  /** Sorted by open time, a group starts with its earliest candle and ends with its latest. */
  lemma SortedEnds(group: seq<Candle>, sorted: seq<Candle>)
    requires |group| > 0 && sorted == SortBy(group, KlineWindow.OpenTimeKey)
    ensures |sorted| == |group|
    ensures sorted[0] in group && sorted[|sorted| - 1] in group
    ensures forall d | d in group :: sorted[0].openTime <= d.openTime <= sorted[|sorted| - 1].openTime
  {
    PermutationMembers(sorted, group);
    forall d | d in group ensures sorted[0].openTime <= d.openTime <= sorted[|sorted| - 1].openTime {
      var k :| 0 <= k < |sorted| && sorted[k] == d;
      SortedBetweenEnds(sorted, KlineWindow.OpenTimeKey, k);
    }
  }

  /** Filtering out the other symbols does not change a symbol's volume. */
  lemma {:induction false} CandlesOfVolume(cs: seq<Candle>, symbol: string)
    ensures VolumeOf(CandlesOf(cs, symbol), symbol) == VolumeOf(cs, symbol)
  {
    if |cs| > 0 {
      var c := cs[|cs| - 1];
      CandlesOfVolume(cs[..|cs| - 1], symbol);
      VolumeOfConcat(CandlesOf(cs[..|cs| - 1], symbol), if c.symbol == symbol then [c] else [], symbol);
      assert VolumeOf([c], symbol) == if c.symbol == symbol then c.quoteVolume else 0.0 by {
        assert [c][..0] == [];
      }
    }
  }

  /** The outcome of `calculate_1h_dynamic`. */
  datatype Dynamic =
    | NoData                        // no minutes, or an empty first minute: None
    | ZeroOpen                      // a candle of a grouped symbol opens at 0: the volatility division raises
    | Records(records: seq<HoursRecord>)

  /** A candle of a symbol that gets a record opens at price 0. */
  predicate HasZeroOpen(cs: seq<Candle>) {
    exists k | 0 <= k < |cs| :: cs[k].open == 0.0 && |CandlesOf(cs, cs[k].symbol)| >= 2
  }

  /** The symbols of `syms` that have at least two candles, in order. */
  function Grouped(cs: seq<Candle>, syms: seq<string>): (r: seq<string>)
    ensures forall s :: s in r <==> s in syms && |CandlesOf(cs, s)| >= 2
  {
    if |syms| == 0 then []
    else
      var rest := Grouped(cs, syms[1..]);
      assert forall s | s in syms :: s == syms[0] || s in syms[1..];
      if |CandlesOf(cs, syms[0])| >= 2 then [syms[0]] + rest else rest
  }

  /** Filtering keeps the symbols distinct. */
  lemma {:induction false} GroupedDistinct(cs: seq<Candle>, syms: seq<string>)
    requires forall i, j | 0 <= i < j < |syms| :: syms[i] != syms[j]
    ensures forall i, j | 0 <= i < j < |Grouped(cs, syms)| :: Grouped(cs, syms)[i] != Grouped(cs, syms)[j]
  {
    if |syms| > 0 {
      DistinctTail(syms);
      GroupedDistinct(cs, syms[1..]);
      var rest := Grouped(cs, syms[1..]);
      if |CandlesOf(cs, syms[0])| >= 2 {
        ConsDistinct(syms[0], rest);
      }
    }
  }

  /** `SymbolRecord` of each grouped symbol. */
  function RecordsFor(cs: seq<Candle>, grouped: seq<string>): (r: seq<HoursRecord>)
    requires forall i | 0 <= i < |grouped| :: |CandlesOf(cs, grouped[i])| >= 2
    ensures |r| == |grouped|
  {
    seq(|grouped|, i requires 0 <= i < |grouped| => SymbolRecord(cs, grouped[i]))
  }

  /** The symbols given a record: exactly those with at least two candles, each once. */
  lemma GroupedSymbols(cs: seq<Candle>)
    ensures forall s :: s in Grouped(cs, Symbols(cs)) <==> |CandlesOf(cs, s)| >= 2
    ensures forall i, j | 0 <= i < j < |Grouped(cs, Symbols(cs))| :: Grouped(cs, Symbols(cs))[i] != Grouped(cs, Symbols(cs))[j]
  {
    var syms := Symbols(cs);
    forall s | |CandlesOf(cs, s)| >= 2 ensures s in syms {
      var c := CandlesOf(cs, s)[0];
      assert c in cs;
      var k :| 0 <= k < |cs| && cs[k] == c;
    }
    GroupedDistinct(cs, syms);
  }

  /** Record `i` belongs to grouped symbol `i`. */
  lemma RecordsForSymbols(cs: seq<Candle>, grouped: seq<string>)
    requires forall i | 0 <= i < |grouped| :: |CandlesOf(cs, grouped[i])| >= 2
    ensures forall i | 0 <= i < |grouped| :: RecordsFor(cs, grouped)[i].symbol == grouped[i]
    ensures forall i | 0 <= i < |grouped| :: RecordsFor(cs, grouped)[i] == SymbolRecord(cs, grouped[i])
  {
  }

  /**
   * `calculate_1h_dynamic` over the selected minute slots: NoData when there
   * are none or the first is empty, ZeroOpen when a candle of a symbol with
   * two or more candles opens at 0 (single-candle symbols are skipped before
   * the division), and otherwise the grouped records of all the candles.
   */
  function Dynamic1h(current: seq<seq<Candle>>): (r: Dynamic)
    ensures r.NoData? <==> |current| == 0 || |current[0]| == 0
    ensures r.ZeroOpen? <==> !r.NoData? && HasZeroOpen(Flatten(current))
    ensures r.Records? ==> r.records == GroupRecords(Flatten(current))
  {
    if |current| == 0 || |current[0]| == 0 then NoData
    else
      var cs := Flatten(current);
      if HasZeroOpen(cs) then ZeroOpen
      else
        Records(GroupRecords(cs))
  }

  /** One record per symbol with two or more candles, in order of first appearance, each its `SymbolRecord`. */
  function GroupRecords(cs: seq<Candle>): (recs: seq<HoursRecord>)
    ensures forall i, j | 0 <= i < j < |recs| :: recs[i].symbol != recs[j].symbol
    ensures forall s :: (exists i | 0 <= i < |recs| :: recs[i].symbol == s) <==> |CandlesOf(cs, s)| >= 2
    ensures forall i | 0 <= i < |recs| :: |CandlesOf(cs, recs[i].symbol)| >= 2 && recs[i] == SymbolRecord(cs, recs[i].symbol)
  {
    var grouped := Grouped(cs, Symbols(cs));
    var recs := RecordsFor(cs, grouped);
    GroupedRecords(cs, grouped, recs);
    recs
  }

  /** How `calculate_1h_records` ends; in no case does the global hourly window change. */
  datatype HourlyOutcome =
    | FirstMinuteMissing  // `candle_1m_records[0][0]` raises IndexError
    | RecordRaises        // the first symbol with two candles raises: a zero open divides by zero, otherwise `HoursRecord(...)` rejects its keywords
    | NothingStored       // returns True; the comprehension rebound the parameter, so nothing reaches the global list

  /**
   * `calculate_1h_records` as written. The keyword arguments it passes to
   * `HoursRecord` are not fields of the six-field dataclass, so building any
   * record raises TypeError; the records it would build go to a local list.
   */
  function Calculate1hRecords(minutes: seq<seq<Candle>>): (o: HourlyOutcome)
    ensures o == FirstMinuteMissing <==> |minutes| == 0 || |minutes[0]| == 0
    ensures o == RecordRaises <==> |minutes| > 0 && |minutes[0]| > 0 && SomeRepeated(Flatten(minutes))
  {
    if |minutes| == 0 || |minutes[0]| == 0 then FirstMinuteMissing
    else
      var cs := Flatten(minutes);
      GroupRecordsNonEmpty(cs);
      if |GroupRecords(cs)| > 0 then RecordRaises else NothingStored
  }

  /** Some symbol of the listing has two or more candles. */
  predicate SomeRepeated(cs: seq<Candle>) {
    exists i | 0 <= i < |cs| :: |CandlesOf(cs, cs[i].symbol)| >= 2
  }

  /** Some record is built exactly when some symbol of the listing has two or more candles. */
  lemma GroupRecordsNonEmpty(cs: seq<Candle>)
    ensures |GroupRecords(cs)| > 0 <==> SomeRepeated(cs)
  {
    var recs := GroupRecords(cs);
    if |recs| > 0 {
      var s := recs[0].symbol;
      var c := CandlesOf(cs, s)[0];
      assert c in CandlesOf(cs, s);
      var i :| 0 <= i < |cs| && cs[i] == c;
      assert cs[i].symbol == s;
    }
    if i :| 0 <= i < |cs| && |CandlesOf(cs, cs[i].symbol)| >= 2 {
      var s := cs[i].symbol;
      assert exists j | 0 <= j < |recs| :: recs[j].symbol == s;
    }
  }

  /** The records for the grouped symbols: one per symbol with two or more candles, each its `SymbolRecord`. */
  lemma GroupedRecords(cs: seq<Candle>, grouped: seq<string>, recs: seq<HoursRecord>)
    requires grouped == Grouped(cs, Symbols(cs))
    requires forall i | 0 <= i < |grouped| :: |CandlesOf(cs, grouped[i])| >= 2
    requires recs == RecordsFor(cs, grouped)
    ensures forall i, j | 0 <= i < j < |recs| :: recs[i].symbol != recs[j].symbol
    ensures forall s :: (exists i | 0 <= i < |recs| :: recs[i].symbol == s) <==> |CandlesOf(cs, s)| >= 2
    ensures forall i | 0 <= i < |recs| :: |CandlesOf(cs, recs[i].symbol)| >= 2 && recs[i] == SymbolRecord(cs, recs[i].symbol)
  {
    GroupedSymbols(cs);
    RecordsForSymbols(cs, grouped);
    SymbolsListed(grouped, recs);
  }

  /** Records whose symbols are, position by position, those of a list name exactly that list's symbols. */
  lemma SymbolsListed(grouped: seq<string>, recs: seq<HoursRecord>)
    requires |recs| == |grouped| && forall i | 0 <= i < |grouped| :: recs[i].symbol == grouped[i]
    ensures forall s :: (exists i | 0 <= i < |recs| :: recs[i].symbol == s) <==> s in grouped
  {
    forall s ensures (exists i | 0 <= i < |recs| :: recs[i].symbol == s) <==> s in grouped {
      if s in grouped {
        var i :| 0 <= i < |grouped| && grouped[i] == s;
        assert recs[i].symbol == s;
      }
    }
  }

  /** `m` sends each symbol of `rs` to its highest `high` and has no other key. */
  ghost predicate IsMaxMap(m: map<string, real>, rs: seq<HoursRecord>) {
    && (forall s | s in m :: exists r | r in rs :: r.symbol == s && r.high == m[s])
    && (forall r | r in rs :: r.symbol in m && r.high <= m[r.symbol])
  }

  /** `process_single_records`: a record replaces the stored high when its symbol is new or its high is greater. */
  function MaxHighs(rs: seq<HoursRecord>): (m: map<string, real>)
    ensures IsMaxMap(m, rs)
  {
    if |rs| == 0 then map[]
    else
      var init := rs[..|rs| - 1];
      var r := rs[|rs| - 1];
      var prev := MaxHighs(init);
      assert forall x | x in rs :: x in init || x == r by {
        assert rs == init + [r];
      }
      if r.symbol !in prev || r.high > prev[r.symbol] then prev[r.symbol := r.high] else prev
  }

  /** Folding one period's result into the running maxima, key by key. */
  function MergeMax(acc: map<string, real>, m: map<string, real>): (r: map<string, real>)
    ensures r.Keys == acc.Keys + m.Keys
    ensures forall s | s in m :: m[s] <= r[s]
    ensures forall s | s in acc :: acc[s] <= r[s]
    ensures forall s | s in r :: (s in m && r[s] == m[s]) || (s in acc && r[s] == acc[s])
  {
    map s | s in acc.Keys + m.Keys ::
      if s in m && (s !in acc || m[s] > acc[s]) then m[s] else acc[s]
  }

  lemma MergeIsMaxMap(a: map<string, real>, b: map<string, real>, x: seq<HoursRecord>, y: seq<HoursRecord>)
    requires IsMaxMap(a, x) && IsMaxMap(b, y)
    ensures IsMaxMap(MergeMax(a, b), x + y)
  {
    var m := MergeMax(a, b);
    forall s | s in m ensures exists r | r in x + y :: r.symbol == s && r.high == m[s] {
      if s in b && m[s] == b[s] {
        var r :| r in y && r.symbol == s && r.high == b[s];
        assert r in x + y;
      } else {
        var r :| r in x && r.symbol == s && r.high == a[s];
        assert r in x + y;
      }
    }
  }

  /**
   * The merge loop of `agregate_12h_records`, sequentially: each period is
   * reduced by `process_single_records` and merged into the running maxima.
   * The result holds every symbol of every period with its highest high.
   */
  function MergePeriods(hs: seq<seq<HoursRecord>>): (r: map<string, real>)
    ensures IsMaxMap(r, Flatten(hs))
  {
    if |hs| == 0 then map[]
    else
      var prev := MergePeriods(hs[..|hs| - 1]);
      FlattenSnoc(hs);
      MergeIsMaxMap(prev, MaxHighs(hs[|hs| - 1]), Flatten(hs[..|hs| - 1]), hs[|hs| - 1]);
      MergeMax(prev, MaxHighs(hs[|hs| - 1]))
  }

  /**
   * `agregate_12h_records`: None for no periods (a pool of zero workers
   * raises ValueError, which the function catches), otherwise the merged
   * maxima.
   */
  function Aggregate12h(hs: seq<seq<HoursRecord>>): (r: Option<map<string, real>>)
    ensures r.None? <==> |hs| == 0
    ensures r.Some? ==> IsMaxMap(r.value, Flatten(hs))
  {
    if |hs| == 0 then None else Some(MergePeriods(hs))
  }

  /** The maxima of a set of records are determined by which records it holds. */
  lemma MaxMapUnique(m1: map<string, real>, m2: map<string, real>, rs1: seq<HoursRecord>, rs2: seq<HoursRecord>)
    requires IsMaxMap(m1, rs1) && IsMaxMap(m2, rs2)
    requires forall r :: r in rs1 <==> r in rs2
    ensures m1 == m2
  {
    forall s | s in m1 ensures s in m2 && m1[s] == m2[s] {
      var r1 :| r1 in rs1 && r1.symbol == s && r1.high == m1[s];
      assert r1 in rs2;
      var r2 :| r2 in rs2 && r2.symbol == s && r2.high == m2[s];
      assert r2 in rs1;
    }
    forall s | s in m2 ensures s in m1 {
      var r2 :| r2 in rs2 && r2.symbol == s && r2.high == m2[s];
      assert r2 in rs1;
    }
  }

  /**
   * The process pool of `agregate_12h_records` merges the periods in whatever order they
   * complete; any order gives the same maxima.
   */
  lemma Aggregate12hOrderIndependent(hs: seq<seq<HoursRecord>>, hs2: seq<seq<HoursRecord>>)
    requires multiset(hs) == multiset(hs2)
    ensures Aggregate12h(hs) == Aggregate12h(hs2)
  {
    forall r ensures r in Flatten(hs) <==> r in Flatten(hs2) {
      if r in Flatten(hs) {
        var i :| 0 <= i < |hs| && r in hs[i];
        assert hs[i] in multiset(hs2);
        var j :| 0 <= j < |hs2| && hs2[j] == hs[i];
      }
      if r in Flatten(hs2) {
        var j :| 0 <= j < |hs2| && r in hs2[j];
        assert hs2[j] in multiset(hs);
        var i :| 0 <= i < |hs| && hs[i] == hs2[j];
      }
    }
    MaxMapUnique(MergePeriods(hs), MergePeriods(hs2), Flatten(hs), Flatten(hs2));
    assert |hs| == |multiset(hs)| == |multiset(hs2)| == |hs2|;
  }
}
