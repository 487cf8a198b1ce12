/**
 * Price tracking of alerts: seeding the buy price from the minute's highest
 * price (`buy_price_writer`) and following the minimum and maximum price
 * seen since (`update_alert_record`).
 */
module Calculator {
  import opened Wrappers
  import opened Candles
  import opened AlertRecords

  // ---------------------------------------------------------------------------
  // Buy-price seeding

  /** The running maximum of `_high_price_by_ticker`, which starts each symbol at 0.0. */
  function HighOrZero(cs: seq<Candle>, symbol: string): (h: real)
    ensures h >= 0.0
    ensures forall c | c in cs && c.symbol == symbol :: c.high <= h
    ensures h == 0.0 || exists c | c in cs && c.symbol == symbol :: c.high == h
  {
    if |cs| == 0 then 0.0
    else
      var init := cs[..|cs| - 1];
      var last := cs[|cs| - 1];
      assert cs == init + [last];
      var prev := HighOrZero(init, symbol);
      if last.symbol == symbol && last.high > prev then last.high else prev
  }

  /** `_high_price_by_ticker`: every symbol present mapped to max(0.0, its highest high). */
  function HighPriceByTicker(cs: seq<Candle>): (m: map<string, real>)
    ensures m.Keys == set c | c in cs :: c.symbol
    ensures forall s | s in m :: m[s] == HighOrZero(cs, s)
  {
    map s | s in (set c | c in cs :: c.symbol) :: HighOrZero(cs, s)
  }

  /** One alert of `update_bpw`: an alert without buy price whose ticker has a price gets it as buy, min and max. */
  function Seed(a: AlertRecord, prices: map<string, real>): (r: AlertRecord)
    ensures (a.buyShortPrice.None? && a.ticker in prices) ==> (
      var p := Some(prices[a.ticker]);
      r.buyShortPrice == p && r.minPrice == p && r.maxPrice == p)
    ensures !(a.buyShortPrice.None? && a.ticker in prices) ==> r == a
    ensures r.ticker == a.ticker && r.volume == a.volume && r.time == a.time
    ensures r.minPriceTime == a.minPriceTime && r.maxPriceTime == a.maxPriceTime
    ensures RpsOf(r) == RpsOf(a) && RpbOf(r) == RpbOf(a)
  {
    if a.buyShortPrice.None? && a.ticker in prices then
      var p := Some(prices[a.ticker]);
      a.(buyShortPrice := p, minPrice := p, maxPrice := p)
    else a
  }

  /** `update_bpw`: the same alerts, in the same order, each seeded. */
  function UpdateBpw(alerts: seq<AlertRecord>, klines: seq<Candle>): (r: seq<AlertRecord>)
    ensures |r| == |alerts|
    ensures forall i | 0 <= i < |r| :: r[i] == Seed(alerts[i], HighPriceByTicker(klines))
  {
    var prices := HighPriceByTicker(klines);
    seq(|alerts|, i requires 0 <= i < |alerts| => Seed(alerts[i], prices))
  }

  /** Seeding twice seeds once: a seeded alert has a buy price. */
  lemma UpdateBpwIdempotent(alerts: seq<AlertRecord>, klines: seq<Candle>)
    ensures UpdateBpw(UpdateBpw(alerts, klines), klines) == UpdateBpw(alerts, klines)
  {
    var once := UpdateBpw(alerts, klines);
    var twice := UpdateBpw(once, klines);
    forall i | 0 <= i < |alerts| ensures twice[i] == once[i] {
      assert once[i] == Seed(alerts[i], HighPriceByTicker(klines));
    }
  }

  // ---------------------------------------------------------------------------
  // Minimum / maximum tracking

  /** 48 hours, in milliseconds. */
  const RecentWindowMs: int := 48 * 3600 * 1000

  /** Follow one candle: the minimum drops to a lower low, the maximum rises to a higher high, each stamped with the candle's time. */
  function Track(a: AlertRecord, c: Candle, klineMs: int): (r: AlertRecord)
    ensures r.minPrice.Some? && r.maxPrice.Some?
    ensures r.minPrice != a.minPrice <==> a.minPrice.None? || c.low < a.minPrice.value
    ensures r.maxPrice != a.maxPrice <==> a.maxPrice.None? || c.high > a.maxPrice.value
    ensures r.minPrice != a.minPrice ==> r.minPrice == Some(c.low) && r.minPriceTime == Some(klineMs)
    ensures r.maxPrice != a.maxPrice ==> r.maxPrice == Some(c.high) && r.maxPriceTime == Some(klineMs)
    ensures r.minPrice == a.minPrice ==> r.minPriceTime == a.minPriceTime
    ensures r.maxPrice == a.maxPrice ==> r.maxPriceTime == a.maxPriceTime
    ensures IdentityOf(r) == IdentityOf(a) && RpsOf(r) == RpsOf(a) && RpbOf(r) == RpbOf(a)
  {
    var a1 := if a.minPrice.None? || c.low < a.minPrice.value
      then a.(minPrice := Some(c.low), minPriceTime := Some(klineMs)) else a;
    if a1.maxPrice.None? || c.high > a1.maxPrice.value
      then a1.(maxPrice := Some(c.high), maxPriceTime := Some(klineMs)) else a1
  }

  /** The minimum never rises and the maximum never falls. */
  lemma TrackMonotone(a: AlertRecord, c: Candle, klineMs: int)
    ensures a.minPrice.Some? ==> Track(a, c, klineMs).minPrice.value <= a.minPrice.value
    ensures a.maxPrice.Some? ==> Track(a, c, klineMs).maxPrice.value >= a.maxPrice.value
    ensures Track(a, c, klineMs).minPrice.value <= c.low && Track(a, c, klineMs).maxPrice.value >= c.high
  {
  }

  /** The same candle twice has the effect of once. */
  lemma TrackIdempotent(a: AlertRecord, c: Candle, klineMs: int)
    ensures Track(Track(a, c, klineMs), c, klineMs) == Track(a, c, klineMs)
  {
  }

  /** An alert is followed when it is at most 48 hours old at `nowMs`. */
  predicate IsRecent(a: AlertRecord, nowMs: int) {
    a.time >= nowMs - RecentWindowMs
  }

  /** One alert of `update_alert_record`: followed when recent and its ticker has a candle. */
  function UpdateOne(a: AlertRecord, candles: map<string, Candle>, nowMs: int, klineMs: int): (r: AlertRecord)
    ensures !(IsRecent(a, nowMs) && a.ticker in candles) ==> r == a
    ensures IsRecent(a, nowMs) && a.ticker in candles ==> r == Track(a, candles[a.ticker], klineMs)
  {
    if IsRecent(a, nowMs) && a.ticker in candles then Track(a, candles[a.ticker], klineMs) else a
  }

  /** `update_alert_record` over all alerts; stale alerts and alerts without a candle are untouched. */
  function UpdateAlertRecord(alerts: seq<AlertRecord>, candles: map<string, Candle>, nowMs: int, klineMs: int): (r: seq<AlertRecord>)
    ensures |r| == |alerts|
    ensures forall i | 0 <= i < |r| :: IdentityOf(r[i]) == IdentityOf(alerts[i])
    ensures forall i | 0 <= i < |r| && !(IsRecent(alerts[i], nowMs) && alerts[i].ticker in candles) :: r[i] == alerts[i]
    ensures forall i | 0 <= i < |r| && IsRecent(alerts[i], nowMs) && alerts[i].ticker in candles ::
      r[i] == Track(alerts[i], candles[alerts[i].ticker], klineMs)
    ensures forall i | 0 <= i < |r| && alerts[i].minPrice.Some? :: r[i].minPrice.Some? && r[i].minPrice.value <= alerts[i].minPrice.value
    ensures forall i | 0 <= i < |r| && alerts[i].maxPrice.Some? :: r[i].maxPrice.Some? && r[i].maxPrice.value >= alerts[i].maxPrice.value
  {
    seq(|alerts|, i requires 0 <= i < |alerts| => UpdateOne(alerts[i], candles, nowMs, klineMs))
  }

  /** Repeating an update with the same candles changes nothing further. */
  lemma UpdateAlertRecordIdempotent(alerts: seq<AlertRecord>, candles: map<string, Candle>, nowMs: int, klineMs: int)
    ensures var once := UpdateAlertRecord(alerts, candles, nowMs, klineMs);
      UpdateAlertRecord(once, candles, nowMs, klineMs) == once
  {
    var once := UpdateAlertRecord(alerts, candles, nowMs, klineMs);
    var twice := UpdateAlertRecord(once, candles, nowMs, klineMs);
    forall i | 0 <= i < |alerts| ensures twice[i] == once[i] {
      if IsRecent(alerts[i], nowMs) && alerts[i].ticker in candles {
        TrackIdempotent(alerts[i], candles[alerts[i].ticker], klineMs);
      }
    }
  }
}
