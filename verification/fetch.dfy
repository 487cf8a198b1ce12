/**
 * The pure parts of the exchange client: the request-rate limiter's queue of
 * timestamps over an abstract clock, the symbol filter, the end-time of the
 * last closed minute, the acceptance of the latest closed candle and the
 * per-ticker to per-minute transposition.
 */
module Fetch {
  import opened Wrappers
  import opened Strings
  import opened Candles

  // ---------------------------------------------------------------------------
  // Rate limiter

  /** The limiter's window, in seconds. */
  const WindowSeconds: real := 60.0

  /** How many leading timestamps are older than the window ending at `now`. */
  function StaleCount(q: seq<real>, now: real): (k: nat)
    ensures k <= |q|
    ensures forall i | 0 <= i < k :: q[i] < now - WindowSeconds
    ensures k < |q| ==> q[k] >= now - WindowSeconds
  {
    if |q| > 0 && q[0] < now - WindowSeconds then 1 + StaleCount(q[1..], now) else 0
  }

  /** The eviction loop: drop from the front every timestamp older than the window. */
  function Evict(q: seq<real>, now: real): (r: seq<real>)
    ensures r == q[StaleCount(q, now)..]
    ensures |r| > 0 ==> r[0] >= now - WindowSeconds
  {
    q[StaleCount(q, now)..]
  }

  /** One call of `wait_if_needed`: the new queue, the time slept and the timestamp recorded. */
  datatype Step = Step(queue: seq<real>, slept: real, stamp: real)

  /**
   * `wait_if_needed` at clock `now`; `woke` is the clock read after the
   * sleep, used only when the limiter sleeps. None stands for the IndexError
   * of reading the oldest entry of an empty queue, reachable only with a
   * limit of zero.
   */
  function WaitIfNeeded(q: seq<real>, limit: nat, now: real, woke: real): (r: Option<Step>)
    ensures r.None? <==> limit == 0 && |Evict(q, now)| == 0
    ensures r.Some? ==> exists k | 0 <= k <= |q| :: r.value.queue == q[k..] + [r.value.stamp]
    ensures r.Some? ==> (r.value.slept > 0.0 <==> |Evict(q, now)| >= limit && Evict(q, now)[0] + WindowSeconds > now)
    ensures r.Some? && r.value.slept > 0.0 ==> r.value.stamp == woke && r.value.slept == Evict(q, now)[0] + WindowSeconds - now
    ensures r.Some? && r.value.slept <= 0.0 ==> r.value.stamp == now && r.value.queue == Evict(q, now) + [now]
  {
    var q1 := Evict(q, now);
    if |q1| >= limit then
      if |q1| == 0 then None
      else
        var wait := WindowSeconds - (now - q1[0]);
        if wait > 0.0 then
          var k := StaleCount(q1, woke);
          assert Evict(q1, woke) == q[StaleCount(q, now) + k..];
          Some(Step(Evict(q1, woke) + [woke], wait, woke))
        else Some(Step(q1 + [now], 0.0, now))
    else Some(Step(q1 + [now], 0.0, now))
  }

  /** The sleep the limiter would take at `now` (zero when it does not sleep). */
  function WaitTime(q: seq<real>, limit: nat, now: real): real {
    var q1 := Evict(q, now);
    if |q1| >= limit && |q1| > 0 && WindowSeconds - (now - q1[0]) > 0.0 then WindowSeconds - (now - q1[0]) else 0.0
  }

  predicate NonDecreasing(q: seq<real>) {
    forall i, j | 0 <= i < j < |q| :: q[i] <= q[j]
  }

  /** Over a monotone clock the queue stays ordered and ends with the newest request. */
  lemma QueueStaysOrdered(q: seq<real>, limit: nat, now: real, woke: real)
    requires NonDecreasing(q) && (forall i | 0 <= i < |q| :: q[i] <= now) && now <= woke
    requires WaitIfNeeded(q, limit, now, woke).Some?
    ensures NonDecreasing(WaitIfNeeded(q, limit, now, woke).value.queue)
    ensures var s := WaitIfNeeded(q, limit, now, woke).value;
      forall i | 0 <= i < |s.queue| :: s.queue[i] <= s.stamp
  {
    var s := WaitIfNeeded(q, limit, now, woke).value;
    var k :| 0 <= k <= |q| && s.queue == q[k..] + [s.stamp];
    assert now <= s.stamp;
    SuffixThenNewest(q, k, s.stamp);
  }

  /** A suffix of an ordered queue followed by a stamp no older than any entry is ordered and ends with its maximum. */
  lemma SuffixThenNewest(q: seq<real>, k: nat, x: real)
    requires NonDecreasing(q) && k <= |q| && forall i | 0 <= i < |q| :: q[i] <= x
    ensures NonDecreasing(q[k..] + [x])
    ensures forall i | 0 <= i < |q[k..] + [x]| :: (q[k..] + [x])[i] <= x
  {
    var r := q[k..] + [x];
    forall i | 0 <= i < |r| ensures r[i] <= x {
      if i < |q| - k {
        assert r[i] == q[k + i];
      }
    }
    forall i, j | 0 <= i < j < |r| ensures r[i] <= r[j] {
      if j < |q| - k {
        assert r[i] == q[k + i] && r[j] == q[k + j];
      }
    }
  }

  /**
   * The limiter holds at most `limit` requests per window, provided no
   * timestamp sits exactly on the window's edge and the sleep outlasts its
   * request; `RateLimitBoundary` shows both edges let one request through.
   */
  lemma QueueBounded(q: seq<real>, limit: nat, now: real, woke: real)
    requires limit > 0 && |q| <= limit
    requires forall i | 0 <= i < |q| :: q[i] != now - WindowSeconds
    requires woke > now + WaitTime(q, limit, now)
    ensures WaitIfNeeded(q, limit, now, woke).Some?
    ensures |WaitIfNeeded(q, limit, now, woke).value.queue| <= limit
  {
    var q1 := Evict(q, now);
    if |q1| >= limit {
      assert q1[0] == q[StaleCount(q, now)];
      assert q1[0] > now - WindowSeconds;
      assert StaleCount(q1, woke) >= 1;
    }
  }

  /** Both edges admit one request too many: a stamp exactly a window old, and a sleep of exactly the wait. */
  lemma RateLimitBoundary()
    ensures WaitIfNeeded([0.0], 1, 60.0, 60.0) == Some(Step([0.0, 60.0], 0.0, 60.0))
    ensures WaitIfNeeded([0.0], 1, 30.0, 60.0) == Some(Step([0.0, 60.0], 30.0, 60.0))
  {
    assert StaleCount([0.0], 60.0) == 0;
    assert StaleCount([0.0], 30.0) == 0;
    assert Evict([0.0], 60.0) == [0.0];
    assert Evict([0.0], 30.0) == [0.0];
    assert [0.0] + [60.0] == [0.0, 60.0];
  }

  // ---------------------------------------------------------------------------
  // Symbol filter

  /** One entry of the exchange-info listing; `contractType` may be absent. */
  datatype SymbolInfo = SymbolInfo(symbol: string, status: string, contractType: Option<string>)

  /** A traded perpetual contract whose name neither starts nor ends with "USDC". */
  predicate Eligible(info: SymbolInfo) {
    && info.status == "TRADING"
    && info.contractType == Some("PERPETUAL")
    && !StartsWith(info.symbol, "USDC")
    && !EndsWith(info.symbol, "USDC")
  }

  /** The symbol loop of `get_trading_symbols`: the eligible names, in listing order. */
  function TradingSymbols(infos: seq<SymbolInfo>): (r: seq<string>)
    ensures |r| <= |infos|
    ensures forall s :: s in r <==> exists info | info in infos :: info.symbol == s && Eligible(info)
    ensures forall s | s in r :: !StartsWith(s, "USDC") && !EndsWith(s, "USDC")
  {
    if |infos| == 0 then []
    else
      var rest := TradingSymbols(infos[1..]);
      assert forall x | x in infos :: x == infos[0] || x in infos[1..];
      if Eligible(infos[0]) then [infos[0].symbol] + rest else rest
  }

  /** The filter is order-preserving: it distributes over concatenation of listings. */
  lemma {:induction false} TradingSymbolsConcat(a: seq<SymbolInfo>, b: seq<SymbolInfo>)
    ensures TradingSymbols(a + b) == TradingSymbols(a) + TradingSymbols(b)
  {
    if |a| > 0 {
      TradingSymbolsConcat(a[1..], b);
      assert (a + b)[0] == a[0];
      assert (a + b)[1..] == a[1..] + b;
    } else {
      assert a + b == b;
    }
  }

  // ---------------------------------------------------------------------------
  // End time

  const MinuteMs: int := 60000

  /** `end_time`: one second before the start of the current minute. */
  function EndTime(t: int): (r: int)
    ensures (r + 1000) % MinuteMs == 0 && r + 1000 <= t < r + 1000 + MinuteMs
    ensures r % MinuteMs == 59000 && r < t
  {
    t - t % MinuteMs - 1000
  }

  /** The end time is determined by the minute `t` falls in. */
  lemma EndTimeUnique(t: int, x: int)
    requires (x + 1000) % MinuteMs == 0 && x + 1000 <= t < x + 1000 + MinuteMs
    ensures x == EndTime(t)
  {
    var m := x + 1000;
    assert m == (m / MinuteMs) * MinuteMs;
    var r := EndTime(t) + 1000;
    assert r == (r / MinuteMs) * MinuteMs;
  }

  // ---------------------------------------------------------------------------
  // Latest closed candle

  /** The test `close_time < current_time`: the kline closed before the clock reading of the request. */
  predicate Accepted(k: Kline, now: int) {
    k.closeTime < now
  }

  /**
   * `fetch_ticker_1m_volumes` given the answer to its request: the candle of
   * the first kline when the status is 200, the list is not empty and that
   * kline closed before `now`; None for any other status, an empty list or a
   * kline still open.
   */
  function LatestCandle(symbol: string, status: int, data: seq<Kline>, now: int): (c: Option<Candle>)
    ensures c.Some? <==> status == 200 && |data| > 0 && data[0].closeTime < now
    ensures c.Some? ==> c.value.symbol == symbol && c.value.openTime == data[0].openTime
    ensures c.Some? ==> c.value.close == data[0].close && c.value.quoteVolume == data[0].quoteVolume
  {
    if status == 200 && |data| > 0 && Accepted(data[0], now) then Some(FromKline(symbol, data[0])) else None
  }

  /** The keyword arguments both fetch functions pass to `CandleRecord(...)`. */
  const KlineKeywords: set<string> :=
    {"symbol", "open_time", "open", "high", "low", "close", "volume", "close_time",
     "quote_assets_volume", "num_of_trades", "taker_buy_base_volume", "taker_buy_quote_volume"}

  /** The fields of the `CandleRecord` dataclass. */
  const CandleFields: set<string> :=
    {"symbol", "open", "close", "high", "low", "volume", "quote_volume",
     "taker_buy_base_volume", "taker_buy_quote_volume", "trades", "open_time"}

  /**
   * The constructor call as written: a dataclass accepts only its own fields
   * as keywords, so the call builds the candle exactly when every keyword is
   * a field, and otherwise raises TypeError (None here).
   */
  function ConstructAsWritten(symbol: string, k: Kline): (r: Option<Candle>)
    ensures r.Some? <==> KlineKeywords <= CandleFields
    ensures r.Some? ==> r.value == FromKline(symbol, k)
  {
    if KlineKeywords <= CandleFields then Some(FromKline(symbol, k)) else None
  }

  /** `close_time`, `quote_assets_volume` and `num_of_trades` are not fields: the call always raises. */
  lemma ConstructAlwaysRaises(symbol: string, k: Kline)
    ensures ConstructAsWritten(symbol, k).None?
  {
    assert "close_time" in KlineKeywords && "close_time" !in CandleFields;
  }

  /**
   * `fetch_ticker_1m_volumes` as written: the accepted kline reaches the
   * constructor call, whose TypeError the `except Exception` clause turns
   * into None, so no answer ever yields a candle.
   */
  function LatestCandleAsWritten(symbol: string, status: int, data: seq<Kline>, now: int): (c: Option<Candle>)
    ensures c.None?
  {
    if status == 200 && |data| > 0 && Accepted(data[0], now) then
      ConstructAlwaysRaises(symbol, data[0]);
      ConstructAsWritten(symbol, data[0])
    else None
  }

  /** A closed kline in a 200 answer: the intended fetch yields its candle, the code as written yields None. */
  lemma LatestCandleAsWrittenLosesCandle()
    ensures var k := Kline(0, 1.0, 1.0, 1.0, 1.0, 1.0, MinuteMs - 1, 1.0, 1, 0.0, 0.0);
            && LatestCandle("BTCUSDT", 200, [k], MinuteMs).Some?
            && LatestCandleAsWritten("BTCUSDT", 200, [k], MinuteMs).None?
  {
  }

  /**
   * A one-minute kline that opens on a minute boundary no later than the
   * request's end time has closed before the request: the test only rejects
   * answers the request did not ask for.
   */
  lemma RequestedKlineAccepted(k: Kline, now: int)
    requires k.openTime % MinuteMs == 0 && k.openTime <= EndTime(now)
    requires k.closeTime == k.openTime + MinuteMs - 1
    ensures Accepted(k, now)
  {
    var start := now - now % MinuteMs;
    assert start % MinuteMs == 0;
    assert k.openTime < start;
    assert (start - k.openTime) % MinuteMs == 0;
    assert k.openTime <= start - MinuteMs;
  }

  // ---------------------------------------------------------------------------
  // Transposition

  /** The tickers whose fetch succeeded with at least one candle, in completion order. */
  function Successful(results: seq<Option<seq<Candle>>>): (r: seq<seq<Candle>>)
    ensures |r| <= |results|
    ensures forall x :: x in r <==> |x| > 0 && Some(x) in results
  {
    if |results| == 0 then []
    else
      var rest := Successful(results[1..]);
      assert forall o | o in results :: o == results[0] || o in results[1..];
      if results[0].Some? && |results[0].value| > 0 then [results[0].value] + rest else rest
  }

  /** Slot `k` of the transposition: the `k`-th candle of every ticker that has one, in ticker order. */
  function Column(tickers: seq<seq<Candle>>, k: nat): (r: seq<Candle>)
    ensures |r| <= |tickers|
    ensures forall c | c in r :: exists j | 0 <= j < |tickers| :: k < |tickers[j]| && tickers[j][k] == c
  {
    if |tickers| == 0 then []
    else
      var n := |tickers| - 1;
      var prev := Column(tickers[..n], k);
      assert forall j | 0 <= j < n :: tickers[..n][j] == tickers[j];
      prev + (if k < |tickers[n]| then [tickers[n][k]] else [])
  }

  /** The number of tickers with more than `k` candles. */
  function Longer(tickers: seq<seq<Candle>>, k: nat): nat {
    if |tickers| == 0 then 0
    else Longer(tickers[..|tickers| - 1], k) + (if k < |tickers[|tickers| - 1]| then 1 else 0)
  }

  /** Slot `k` holds exactly one candle per ticker with more than `k` candles. */
  lemma {:induction false} ColumnSize(tickers: seq<seq<Candle>>, k: nat)
    ensures |Column(tickers, k)| == Longer(tickers, k)
  {
    if |tickers| > 0 {
      ColumnSize(tickers[..|tickers| - 1], k);
    }
  }

  /** The transposition of `fetch_all_tickers_volumes_for_time`: exactly `count` slots. */
  function Transpose(tickers: seq<seq<Candle>>, count: nat): (r: seq<seq<Candle>>)
    ensures |r| == count
    ensures forall k | 0 <= k < count :: r[k] == Column(tickers, k)
  {
    seq(count, k requires 0 <= k < count => Column(tickers, k))
  }

  /** The transposition as the nested loops of `fetch_all_tickers_volumes_for_time`. */
  method TransposeLoops(tickers: seq<seq<Candle>>, count: nat) returns (minutes: seq<seq<Candle>>)
    ensures minutes == Transpose(tickers, count)
  {
    minutes := seq(count, _ => []);
    var j := 0;
    while j < |tickers|
      invariant 0 <= j <= |tickers|
      invariant |minutes| == count
      invariant forall k | 0 <= k < count :: minutes[k] == Column(tickers[..j], k)
    {
      var candles := tickers[j];
      var i := 0;
      while i < |candles|
        invariant 0 <= i <= |candles|
        invariant |minutes| == count
        invariant forall k | 0 <= k < count && k < i :: minutes[k] == Column(tickers[..j + 1], k)
        invariant forall k | 0 <= k < count && i <= k :: minutes[k] == Column(tickers[..j], k)
      {
        if i < count {
          ColumnSnoc(tickers, j, i);
          minutes := minutes[i := minutes[i] + [candles[i]]];
        }
        i := i + 1;
      }
      forall k | 0 <= k < count && |candles| <= k
        ensures minutes[k] == Column(tickers[..j + 1], k)
      {
        ColumnSnoc(tickers, j, k);
      }
      j := j + 1;
    }
    assert tickers[..j] == tickers;
  }

  /** Adding ticker `j` appends its `k`-th candle to slot `k`, if it has one. */
  lemma ColumnSnoc(tickers: seq<seq<Candle>>, j: nat, k: nat)
    requires j < |tickers|
    ensures Column(tickers[..j + 1], k) == Column(tickers[..j], k) + (if k < |tickers[j]| then [tickers[j][k]] else [])
  {
    assert tickers[..j + 1][..j] == tickers[..j];
  }
}
