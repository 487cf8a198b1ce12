/**
 * The two signal rules: the volume surge (ten-minute volume, scaled to an
 * hour, at least five times every recent hourly volume), in its current and
 * its first-generation form, and the 12-hour price breakout.
 */
module Signals {
  import opened Wrappers
  import opened Candles
  import opened Sorting
  import HourAggregates

  /** `X_MULTIPLIER`. */
  const Multiplier: real := 5.0
  /** Ten minutes scaled to an hour. */
  const HourFactor: real := 6.0
  /** The current rule needs this many hourly volumes. */
  const RequiredHours: nat := 10

  /** Why a ticker did not fire; `analyze_ticker` reports these as messages. */
  datatype Reason =
    | NoTenMinuteVolume
    | TooFewHours                          // current rule: fewer than ten hourly volumes
    | NoHourVolumes                        // first generation: none of the ten columns present
    | NonPositive(index: nat)              // current rule: 1-based position of a volume <= 0
    | BelowRatio(index: nat, ratio: real)  // current rule: 1-based position of a ratio below the threshold
    | Unmet                                // first generation: some volume failed

  /** The outcome; the confidence is the smallest ratio, which `analyze_ticker` reports as `{:.2f}` text. */
  datatype Verdict = Triggered(confidence: real) | NotTriggered(reason: Reason)

  /** One hourly volume passes: it is positive and the hourly-scaled volume is at least five times it. */
  predicate Passes(scaled: real, v: real) {
    v > 0.0 && scaled >= Multiplier * v
  }

  /** The test `analyze_ticker` writes, by the ratio: a positive volume passes exactly when the ratio reaches the multiplier. */
  lemma PassesByRatio(scaled: real, v: real)
    requires v > 0.0
    ensures Passes(scaled, v) <==> scaled / v >= Multiplier
  {
    assert scaled / v * v == scaled;
  }

  /** The index of the first volume that fails, or None. */
  function FirstFailure(scaled: real, hours: seq<real>): (r: Option<nat>)
    ensures r.None? <==> forall i | 0 <= i < |hours| :: Passes(scaled, hours[i])
    ensures r.Some? ==> r.value < |hours| && !Passes(scaled, hours[r.value])
    ensures r.Some? ==> forall i | 0 <= i < r.value :: Passes(scaled, hours[i])
  {
    if |hours| == 0 then None
    else if !Passes(scaled, hours[0]) then Some(0)
    else
      match FirstFailure(scaled, hours[1..])
      case None => None
      case Some(k) => Some(k + 1)
  }

  predicate AllPositive(hours: seq<real>) {
    forall i | 0 <= i < |hours| :: hours[i] > 0.0
  }

  /** `m` is the smallest of the ratios `scaled / hours[i]`: no ratio is below it and one of them equals it. */
  predicate IsMinRatio(m: real, scaled: real, hours: seq<real>) {
    && AllPositive(hours)
    && (forall i | 0 <= i < |hours| :: m <= scaled / hours[i])
    && (exists i | 0 <= i < |hours| :: m == scaled / hours[i])
  }

  /** The smallest ratio over positive volumes. */
  function MinRatio(scaled: real, hours: seq<real>): (m: real)
    requires |hours| > 0 && AllPositive(hours)
    ensures forall i | 0 <= i < |hours| :: m <= scaled / hours[i]
    ensures exists i | 0 <= i < |hours| :: m == scaled / hours[i]
  {
    if |hours| == 1 then scaled / hours[0]
    else
      var rest := MinRatio(scaled, hours[1..]);
      assert forall i | 1 <= i < |hours| :: hours[i] == hours[1..][i - 1];
      var here := scaled / hours[0];
      if here < rest then here else rest
  }

  /** The verdict of the scan, for a non-empty list of volumes. */
  function ScanVerdict(scaled: real, hours: seq<real>): (v: Verdict)
    requires |hours| > 0
    ensures v.Triggered? <==> forall i | 0 <= i < |hours| :: Passes(scaled, hours[i])
  {
    match FirstFailure(scaled, hours)
    case None => Triggered(MinRatio(scaled, hours))
    case Some(k) =>
      if hours[k] <= 0.0 then NotTriggered(NonPositive(k + 1))
      else NotTriggered(BelowRatio(k + 1, scaled / hours[k]))
  }

  /**
   * `analyze_ticker` (current): fires exactly when the ten-minute volume is
   * known, at least ten hourly volumes are given and every one passes; the
   * confidence is then the smallest ratio.
   */
  function AnalyzeTicker(v10m: Option<real>, hours: seq<real>): (v: Verdict)
    ensures v.Triggered? <==> (&& v10m.Some? && |hours| >= RequiredHours
                               && forall i | 0 <= i < |hours| :: Passes(HourFactor * v10m.value, hours[i]))
    ensures v.Triggered? ==> ((forall i | 0 <= i < |hours| :: v.confidence <= HourFactor * v10m.value / hours[i])
                              && (exists i | 0 <= i < |hours| :: v.confidence == HourFactor * v10m.value / hours[i]))
    ensures v == NotTriggered(NoTenMinuteVolume) <==> v10m.None?
  {
    if v10m.None? then NotTriggered(NoTenMinuteVolume)
    else if |hours| < RequiredHours then NotTriggered(TooFewHours)
    else ScanVerdict(HourFactor * v10m.value, hours)
  }

  /** `analyze_ticker` (current) as its statements, early returns included. */
  method AnalyzeTickerLoop(v10m: Option<real>, hours: seq<real>) returns (v: Verdict)
    ensures v == AnalyzeTicker(v10m, hours)
  {
    if v10m.None? {
      return NotTriggered(NoTenMinuteVolume);
    }
    var scaled := HourFactor * v10m.value;
    if |hours| == 0 || |hours| < RequiredHours {
      return NotTriggered(TooFewHours);
    }
    v := ScanLoop(scaled, hours);
  }

  /** The loop of `analyze_ticker`, stopping at the first failing volume. */
  method ScanLoop(scaled: real, hours: seq<real>) returns (v: Verdict)
    requires |hours| > 0
    ensures v == ScanVerdict(scaled, hours)
  {
    var minRatio := 0.0;  // stands for the Python code's infinity: replaced at the first volume
    var i := 0;
    while i < |hours|
      invariant 0 <= i <= |hours|
      invariant forall j | 0 <= j < i :: Passes(scaled, hours[j])
      invariant AllPositive(hours[..i])
      invariant i > 0 ==> minRatio == MinRatio(scaled, hours[..i])
    {
      var vol := hours[i];
      if vol <= 0.0 {
        ScanStopsAt(scaled, hours, i);
        return NotTriggered(NonPositive(i + 1));
      }
      var ratio := scaled / vol;
      PassesByRatio(scaled, vol);
      MinRatioStep(scaled, hours, i, minRatio);
      minRatio := if i == 0 || ratio < minRatio then ratio else minRatio;
      if ratio < Multiplier {
        ScanStopsAt(scaled, hours, i);
        return NotTriggered(BelowRatio(i + 1, ratio));
      }
      i := i + 1;
    }
    assert hours[..i] == hours;
    ScanCompletes(scaled, hours);
    v := Triggered(minRatio);
  }

  /** The scan stops at the first failing volume, with the reason the loop reports there. */
  lemma ScanStopsAt(scaled: real, hours: seq<real>, i: nat)
    requires i < |hours| && !Passes(scaled, hours[i])
    requires forall j | 0 <= j < i :: Passes(scaled, hours[j])
    ensures ScanVerdict(scaled, hours) == if hours[i] <= 0.0 then NotTriggered(NonPositive(i + 1))
                                         else NotTriggered(BelowRatio(i + 1, scaled / hours[i]))
  {
    FirstFailureAt(scaled, hours, i);
  }

  /** A scan that passes every volume fires with the smallest ratio. */
  lemma ScanCompletes(scaled: real, hours: seq<real>)
    requires |hours| > 0 && forall j | 0 <= j < |hours| :: Passes(scaled, hours[j])
    ensures AllPositive(hours) && ScanVerdict(scaled, hours) == Triggered(MinRatio(scaled, hours))
  {
  }

  /** One step of the running minimum. */
  lemma MinRatioStep(scaled: real, hours: seq<real>, i: nat, minRatio: real)
    requires i < |hours| && AllPositive(hours[..i]) && hours[i] > 0.0
    requires i > 0 ==> minRatio == MinRatio(scaled, hours[..i])
    ensures AllPositive(hours[..i + 1])
    ensures (var ratio := scaled / hours[i];
      MinRatio(scaled, hours[..i + 1]) == if i == 0 || ratio < minRatio then ratio else minRatio)
  {
    var h := hours[..i + 1];
    PositiveSnoc(hours, i);
    assert h[..i] == hours[..i] && h[i] == hours[i];
    MinRatioSnoc(scaled, h);
  }

  lemma PositiveSnoc(hours: seq<real>, i: nat)
    requires i < |hours| && AllPositive(hours[..i]) && hours[i] > 0.0
    ensures AllPositive(hours[..i + 1])
  {
    var h, p := hours[..i + 1], hours[..i];
    forall j | 0 <= j < |h| ensures h[j] > 0.0 {
      if j < i {
        assert h[j] == p[j];
      }
    }
  }

  /** The first failing volume is at `i` when all before it pass and it does not. */
  lemma {:induction false} FirstFailureAt(scaled: real, hours: seq<real>, i: nat)
    requires i < |hours| && !Passes(scaled, hours[i])
    requires forall j | 0 <= j < i :: Passes(scaled, hours[j])
    ensures FirstFailure(scaled, hours) == Some(i)
  {
    if i > 0 {
      FirstFailureAt(scaled, hours[1..], i - 1);
    }
  }

  /** The running minimum of the loop: adding a volume at the end. */
  lemma {:induction false} MinRatioSnoc(scaled: real, hours: seq<real>)
    requires |hours| > 0 && AllPositive(hours)
    ensures var last := scaled / hours[|hours| - 1];
      MinRatio(scaled, hours) == if |hours| == 1 then last
        else (var prev := MinRatio(scaled, hours[..|hours| - 1]); if last < prev then last else prev)
  {
    if |hours| > 2 {
      MinRatioSnoc(scaled, hours[1..]);
      assert hours[1..][..|hours| - 2] == hours[..|hours| - 1][1..];
    }
  }

  /** What one ticker contributes: the ticker with its confidence when it fires, nothing otherwise. */
  function Fired(t: string, v10m: map<string, real>, v10h: map<string, seq<real>>): seq<(string, real)> {
    match AnalyzeTicker(Lookup(v10m, t), LookupHours(v10h, t))
    case Triggered(c) => [(t, c)]
    case NotTriggered(_) => []
  }

  /** The contributions of the tickers, in order. */
  function FiredAll(tickers: seq<string>, v10m: map<string, real>, v10h: map<string, seq<real>>): seq<(string, real)> {
    if |tickers| == 0 then [] else Fired(tickers[0], v10m, v10h) + FiredAll(tickers[1..], v10m, v10h)
  }

  /** `process_tickers_analytics`: the tickers that fire, in input order, with their confidence. */
  function ProcessTickers(tickers: seq<string>, v10m: map<string, real>, v10h: map<string, seq<real>>): (r: seq<(string, real)>)
    ensures |r| <= |tickers|
    ensures forall p | p in r :: p.0 in tickers && AnalyzeTicker(Lookup(v10m, p.0), LookupHours(v10h, p.0)) == Triggered(p.1)
    ensures forall t | t in tickers && AnalyzeTicker(Lookup(v10m, t), LookupHours(v10h, t)).Triggered? :: exists p | p in r :: p.0 == t
  {
    FiredAllReports(tickers, v10m, v10h);
    FiredAll(tickers, v10m, v10h)
  }

  /** Every contribution is a firing ticker of the list, and every firing ticker contributes. */
  lemma {:induction false} FiredAllReports(tickers: seq<string>, v10m: map<string, real>, v10h: map<string, seq<real>>)
    ensures var r := FiredAll(tickers, v10m, v10h);
      && |r| <= |tickers|
      && (forall p | p in r :: p.0 in tickers && AnalyzeTicker(Lookup(v10m, p.0), LookupHours(v10h, p.0)) == Triggered(p.1))
      && (forall t | t in tickers && AnalyzeTicker(Lookup(v10m, t), LookupHours(v10h, t)).Triggered? :: exists p | p in r :: p.0 == t)
  {
    if |tickers| > 0 {
      var t := tickers[0];
      FiredAllReports(tickers[1..], v10m, v10h);
      assert forall x | x in tickers :: x == t || x in tickers[1..];
    }
  }

  /** The result for one ticker: the ticker with its confidence when it fires, nothing otherwise. */
  lemma ProcessTickersSingle(t: string, v10m: map<string, real>, v10h: map<string, seq<real>>)
    ensures ProcessTickers([t], v10m, v10h) ==
      match AnalyzeTicker(Lookup(v10m, t), LookupHours(v10h, t))
      case Triggered(c) => [(t, c)]
      case NotTriggered(_) => []
  {
    assert [t][1..] == [];
    assert FiredAll([t], v10m, v10h) == Fired(t, v10m, v10h) + [];
  }

  /**
   * The loop of `process_tickers_analytics` visits the tickers in order: the
   * result for a concatenation is the result for each part, in order, so
   * every occurrence of a firing ticker is reported, at its place.
   */
  lemma {:induction false} ProcessTickersConcat(a: seq<string>, b: seq<string>, v10m: map<string, real>, v10h: map<string, seq<real>>)
    ensures ProcessTickers(a + b, v10m, v10h) == ProcessTickers(a, v10m, v10h) + ProcessTickers(b, v10m, v10h)
  {
    FiredAllConcat(a, b, v10m, v10h);
  }

  lemma {:induction false} FiredAllConcat(a: seq<string>, b: seq<string>, v10m: map<string, real>, v10h: map<string, seq<real>>)
    ensures FiredAll(a + b, v10m, v10h) == FiredAll(a, v10m, v10h) + FiredAll(b, v10m, v10h)
  {
    if |a| == 0 {
      assert a + b == b;
    } else {
      var ab := a + b;
      FiredAllConcat(a[1..], b, v10m, v10h);
      assert ab[0] == a[0] && ab[1..] == a[1..] + b;
      PairsAssoc(Fired(a[0], v10m, v10h), FiredAll(a[1..], v10m, v10h), FiredAll(b, v10m, v10h));
    }
  }

  lemma PairsAssoc(p: seq<(string, real)>, q: seq<(string, real)>, r: seq<(string, real)>)
    ensures p + (q + r) == (p + q) + r
  {
  }

  /** `dict.get(ticker)`. */
  function Lookup(m: map<string, real>, t: string): Option<real> {
    if t in m then Some(m[t]) else None
  }

  /** `dict.get(ticker, [])`. */
  function LookupHours(m: map<string, seq<real>>, t: string): seq<real> {
    if t in m then m[t] else []
  }

  // ---------------------------------------------------------------------------
  // First generation

  /** The values of the columns `total_volume_1` .. `total_volume_10` that are present, in column order. */
  function Collected(row: map<nat, real>, from: nat): (r: seq<real>)
    requires 1 <= from
    ensures |r| <= RequiredHours + 1 - from || (from > RequiredHours && |r| == 0)
    ensures forall x | x in r :: exists i | from <= i <= RequiredHours && i in row :: row[i] == x
    decreases RequiredHours + 1 - from
  {
    if from > RequiredHours then []
    else (if from in row then [row[from]] else []) + Collected(row, from + 1)
  }

  /**
   * `analyze_ticker` (first generation): reads whichever of the ten columns
   * are present, and fires when at least one is and all of them pass, with
   * the smallest of their ratios as confidence.
   */
  function LegacyAnalyzeTicker(v10m: Option<real>, row: map<nat, real>): (v: Verdict)
    ensures v.Triggered? <==> (&& v10m.Some? && |Collected(row, 1)| > 0
                               && forall i | 0 <= i < |Collected(row, 1)| :: Passes(HourFactor * v10m.value, Collected(row, 1)[i]))
    ensures v.Triggered? ==> v10m.Some? && IsMinRatio(v.confidence, HourFactor * v10m.value, Collected(row, 1))
  {
    if v10m.None? then NotTriggered(NoTenMinuteVolume)
    else
      var vols := Collected(row, 1);
      if |vols| == 0 then NotTriggered(NoHourVolumes)
      else
        LegacyScan(HourFactor * v10m.value, vols)
  }

  /** The loop of the first generation over the present columns: Unmet at a failing column, otherwise the smallest ratio. */
  function LegacyScan(scaled: real, vols: seq<real>): (v: Verdict)
    requires |vols| > 0
    ensures v.Triggered? <==> forall i | 0 <= i < |vols| :: Passes(scaled, vols[i])
    ensures v.Triggered? ==> IsMinRatio(v.confidence, scaled, vols)
    ensures v.NotTriggered? ==> v.reason == Unmet
  {
    if FirstFailure(scaled, vols).Some? then NotTriggered(Unmet)
    else Triggered(MinRatio(scaled, vols))
  }

  /** The volume of column `i` (1-based). */
  function Column(hours: seq<real>, i: nat): real
    requires 1 <= i <= |hours|
  {
    hours[i - 1]
  }

  /** A row with every column present, column `i` holding `hours[i - 1]`. */
  function FullRow(hours: seq<real>): (row: map<nat, real>)
    ensures forall i: nat :: i in row <==> 1 <= i <= |hours|
  {
    map i: nat | 1 <= i <= |hours| :: Column(hours, i)
  }

  /** A row holding exactly the ten columns yields them in order. */
  lemma {:induction false} CollectedFull(hours: seq<real>, from: nat)
    requires |hours| == RequiredHours && 1 <= from
    ensures Collected(FullRow(hours), from)
         == if from > RequiredHours then [] else hours[from - 1..]
    decreases RequiredHours + 1 - from
  {
    if from <= RequiredHours {
      CollectedFull(hours, from + 1);
    }
  }

  /** On ten hourly volumes the two generations agree, confidence included. */
  lemma GenerationsAgreeOnTenHours(v10m: Option<real>, hours: seq<real>)
    requires |hours| == RequiredHours
    ensures var legacy := LegacyAnalyzeTicker(v10m, FullRow(hours));
      var current := AnalyzeTicker(v10m, hours);
      legacy.Triggered? == current.Triggered? && (current.Triggered? ==> legacy == current)
  {
    CollectedFull(hours, 1);
  }

  /** On fewer hours they differ: one positive hourly volume is enough for the first generation. */
  lemma GenerationsDifferOnShortInput()
    ensures LegacyAnalyzeTicker(Some(1.0), map[1 := 1.0]) == Triggered(6.0)
    ensures AnalyzeTicker(Some(1.0), [1.0]) == NotTriggered(TooFewHours)
  {
    var row: map<nat, real> := map[1 := 1.0];
    assert Collected(row, 2) == [] by {
      CollectedAbsent(row, 2);
    }
    assert Collected(row, 1) == [1.0];
  }

  lemma {:induction false} CollectedAbsent(row: map<nat, real>, from: nat)
    requires 1 <= from && forall i | i in row :: i < from
    ensures Collected(row, from) == []
    decreases RequiredHours + 1 - from
  {
    if from <= RequiredHours {
      CollectedAbsent(row, from + 1);
    }
  }

  // ---------------------------------------------------------------------------
  // 12-hour level breakout

  /** The close of the first candle of `symbol` in the list. */
  function FirstClose(cs: seq<Candle>, symbol: string): (r: Option<real>)
    ensures r.None? <==> forall k | 0 <= k < |cs| :: cs[k].symbol != symbol
    ensures r.Some? ==> exists k | 0 <= k < |cs| :: cs[k].symbol == symbol && cs[k].close == r.value
                          && forall j | 0 <= j < k :: cs[j].symbol != symbol
  {
    match FirstCandle(cs, symbol)
    case None => None
    case Some(c) => Some(c.close)
  }

  /** A symbol breaks out when it has an aggregated high and its first close is strictly above it. */
  predicate BreaksOut(cs: seq<Candle>, highs: map<string, real>, symbol: string) {
    symbol in highs && FirstClose(cs, symbol).Some? && FirstClose(cs, symbol).value > highs[symbol]
  }

  /** The breakouts among `syms`, in order, with close minus high. */
  function Ups(cs: seq<Candle>, highs: map<string, real>, syms: seq<string>): (r: seq<(string, real)>)
    ensures forall p | p in r :: p.0 in syms && BreaksOut(cs, highs, p.0) && p.1 == FirstClose(cs, p.0).value - highs[p.0]
    ensures forall s | s in syms && BreaksOut(cs, highs, s) :: exists p | p in r :: p.0 == s
  {
    if |syms| == 0 then []
    else
      var s := syms[0];
      var rest := Ups(cs, highs, syms[1..]);
      assert forall x | x in syms :: x == s || x in syms[1..];
      if BreaksOut(cs, highs, s) then [(s, FirstClose(cs, s).value - highs[s])] + rest else rest
  }

  function NegatedDifference(p: (string, real)): real {
    -p.1
  }

  /**
   * `process_level_breakout_12h`: every symbol of the minute whose first
   * close is strictly above its aggregated high, with the (positive)
   * difference, largest difference first; ties keep first-appearance order.
   * No breakout gives an empty result.
   */
  function LevelBreakout(cs: seq<Candle>, highs: map<string, real>): (r: seq<(string, real)>)
    ensures forall p | p in r :: BreaksOut(cs, highs, p.0) && p.1 > 0.0 && p.1 == FirstClose(cs, p.0).value - highs[p.0]
    ensures forall s | BreaksOut(cs, highs, s) :: exists p | p in r :: p.0 == s
    ensures DistinctSymbols(r)
    ensures forall i, j | 0 <= i < j < |r| :: r[i].1 >= r[j].1
  {
    var syms := HourAggregates.Symbols(cs);
    var ups := Ups(cs, highs, syms);
    UpsDistinct(cs, highs, syms);
    var r := ByDifference(ups);
    BreakoutsReported(cs, highs, syms, ups, r);
    r
  }

  /** Symbols listed at most once each. */
  predicate DistinctSymbols(s: seq<(string, real)>) {
    forall i, j | 0 <= i < j < |s| :: s[i].0 != s[j].0
  }

  /** `sorted(..., key=lambda x: x[1], reverse=True)`: the same pairs, largest difference first, symbols still once each. */
  function ByDifference(ups: seq<(string, real)>): (r: seq<(string, real)>)
    ensures forall p :: p in r <==> p in ups
    ensures DistinctSymbols(ups) ==> DistinctSymbols(r)
    ensures forall i, j | 0 <= i < j < |r| :: r[i].1 >= r[j].1
  {
    var r := SortBy(ups, NegatedDifference);
    SortedByDifference(ups, r);
    r
  }

  /** The sort is stable: the pairs of each difference keep their input order. */
  lemma ByDifferenceStable(ups: seq<(string, real)>, d: real)
    ensures WithKey(ByDifference(ups), NegatedDifference, d) == WithKey(ups, NegatedDifference, d)
  {
    SortByStable(ups, NegatedDifference, d);
  }

  /**
   * Ties keep first-appearance order: the breakouts of each difference are
   * listed in the order in which their symbols first appear in the minute.
   */
  lemma LevelBreakoutTiesInOrder(cs: seq<Candle>, highs: map<string, real>, d: real)
    ensures WithKey(LevelBreakout(cs, highs), NegatedDifference, d)
         == WithKey(Ups(cs, highs, HourAggregates.Symbols(cs)), NegatedDifference, d)
  {
    ByDifferenceStable(Ups(cs, highs, HourAggregates.Symbols(cs)), d);
  }

  lemma SortedByDifference(ups: seq<(string, real)>, r: seq<(string, real)>)
    requires r == SortBy(ups, NegatedDifference)
    ensures forall p :: p in r <==> p in ups
    ensures DistinctSymbols(ups) ==> DistinctSymbols(r)
    ensures forall i, j | 0 <= i < j < |r| :: r[i].1 >= r[j].1
  {
    PermutationMembers(ups, r);
    DistinctSymbolsPermutation(ups, r);
    assert forall i, j | 0 <= i < j < |r| :: NegatedDifference(r[i]) <= NegatedDifference(r[j]);
  }

  /** A permutation of pairs with distinct symbols has distinct symbols. */
  lemma DistinctSymbolsPermutation(a: seq<(string, real)>, b: seq<(string, real)>)
    requires multiset(a) == multiset(b)
    ensures DistinctSymbols(a) ==> DistinctSymbols(b)
  {
    if DistinctSymbols(a) {
      forall i, j | 0 <= i < j < |b| ensures b[i].0 != b[j].0 {
        assert b[i] in multiset(a) && b[j] in multiset(a);
        var p :| 0 <= p < |a| && a[p] == b[i];
        var q :| 0 <= q < |a| && a[q] == b[j];
        OnceInDistinct(a, p);
        TwiceCounted(b, i, j);
        assert b[i] != b[j];
      }
    }
  }

  /** The sorted breakouts are exactly the breakouts of the minute, each once. */
  lemma BreakoutsReported(cs: seq<Candle>, highs: map<string, real>, syms: seq<string>, ups: seq<(string, real)>, r: seq<(string, real)>)
    requires forall s :: s in syms <==> exists k | 0 <= k < |cs| :: cs[k].symbol == s
    requires forall p | p in ups :: p.0 in syms && BreaksOut(cs, highs, p.0) && p.1 == FirstClose(cs, p.0).value - highs[p.0]
    requires forall s | s in syms && BreaksOut(cs, highs, s) :: exists p | p in ups :: p.0 == s
    requires forall p :: p in r <==> p in ups
    ensures forall p | p in r :: BreaksOut(cs, highs, p.0) && p.1 > 0.0 && p.1 == FirstClose(cs, p.0).value - highs[p.0]
    ensures forall s | BreaksOut(cs, highs, s) :: exists p | p in r :: p.0 == s
  {
    forall s | BreaksOut(cs, highs, s) ensures exists p | p in r :: p.0 == s {
      var k :| 0 <= k < |cs| && cs[k].symbol == s;
      assert s in syms;
      var p :| p in ups && p.0 == s;
      assert p in r;
    }
  }

  /** Over symbols listed once, each breakout is listed once (the keys of the `tickers_up` dict). */
  lemma {:induction false} UpsDistinct(cs: seq<Candle>, highs: map<string, real>, syms: seq<string>)
    requires forall i, j | 0 <= i < j < |syms| :: syms[i] != syms[j]
    ensures DistinctSymbols(Ups(cs, highs, syms))
  {
    if |syms| > 0 {
      var s, t := syms[0], syms[1..];
      DistinctTail(syms);
      UpsDistinct(cs, highs, t);
      var rest := Ups(cs, highs, t);
      if BreaksOut(cs, highs, s) {
        ConsDistinctSymbols((s, FirstClose(cs, s).value - highs[s]), rest, t);
      }
    }
  }


  /** A pair whose symbol is not among the others' keeps the symbols distinct. */
  lemma ConsDistinctSymbols(x: (string, real), rest: seq<(string, real)>, t: seq<string>)
    requires DistinctSymbols(rest) && x.0 !in t && forall p | p in rest :: p.0 in t
    ensures DistinctSymbols([x] + rest)
  {
    var r := [x] + rest;
    forall i, j | 0 <= i < j < |r| ensures r[i].0 != r[j].0 {
      assert r[j] == rest[j - 1] && rest[j - 1] in rest;
      if i > 0 {
        assert r[i] == rest[i - 1];
      }
    }
  }
}
