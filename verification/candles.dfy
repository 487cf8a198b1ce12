/**
 * One minute's trade summary for one symbol (`CandleRecord`), the raw kline
 * the exchange returns, and the candle's dict form.
 */
module Candles {
  import opened Wrappers
  import opened Values

  /**
   * A one-minute candle. Field names follow `CandleRecord`; the fetch layer's
   * `quote_assets_volume` / `num_of_trades` are the same quantities.
   */
  datatype Candle = Candle(
    symbol: string,
    open: real,
    close: real,
    high: real,
    low: real,
    volume: real,
    quoteVolume: real,
    takerBuyBaseVolume: real,
    takerBuyQuoteVolume: real,
    trades: int,
    openTime: int)

  /** A kline row of the exchange's answer (`[openTime, open, high, low, close, volume, closeTime, quoteVolume, trades, takerBase, takerQuote]`). */
  datatype Kline = Kline(
    openTime: int,
    open: real,
    high: real,
    low: real,
    close: real,
    volume: real,
    closeTime: int,
    quoteVolume: real,
    trades: int,
    takerBuyBaseVolume: real,
    takerBuyQuoteVolume: real)

  /**
   * The candle the fetch layer means to build from a kline of `symbol`: the
   * code's `CandleRecord(...)` call names the quote volume and trade count
   * `quote_assets_volume` and `num_of_trades` and adds `close_time`, which
   * the dataclass does not accept (see `Fetch.ConstructAsWritten`).
   */
  function FromKline(symbol: string, k: Kline): (c: Candle)
    ensures c.symbol == symbol && c.openTime == k.openTime
    ensures c.open == k.open && c.high == k.high && c.low == k.low && c.close == k.close
    ensures c.quoteVolume == k.quoteVolume && c.trades == k.trades
  {
    Candle(symbol, k.open, k.close, k.high, k.low, k.volume, k.quoteVolume,
           k.takerBuyBaseVolume, k.takerBuyQuoteVolume, k.trades, k.openTime)
  }

  const CandleKeys: set<string> :=
    {"symbol", "open", "close", "high", "low", "quote_volume",
     "taker_buy_base_volume", "taker_buy_quote_volume", "trades", "open_time"}

  /** `CandleRecord.to_dict`: ten keys; the base-asset volume is not written. */
  function CandleToDict(c: Candle): (d: Dict)
    ensures d.Keys == CandleKeys && "volume" !in d
  {
    map["symbol" := VStr(c.symbol), "open" := VReal(c.open), "close" := VReal(c.close),
        "high" := VReal(c.high), "low" := VReal(c.low), "quote_volume" := VReal(c.quoteVolume),
        "taker_buy_base_volume" := VReal(c.takerBuyBaseVolume),
        "taker_buy_quote_volume" := VReal(c.takerBuyQuoteVolume),
        "trades" := VInt(c.trades), "open_time" := VInt(c.openTime)]
  }

  /** The dict keeps every field except `volume`: two candles have the same dict iff they differ at most in volume. */
  lemma CandleToDictLosesOnlyVolume(a: Candle, b: Candle)
    ensures CandleToDict(a) == CandleToDict(b) <==> a == b.(volume := a.volume)
  {
    if CandleToDict(a) == CandleToDict(b) {
      var da, db := CandleToDict(a), CandleToDict(b);
      assert da["symbol"] == db["symbol"] && da["open"] == db["open"] && da["close"] == db["close"];
      assert da["high"] == db["high"] && da["low"] == db["low"] && da["quote_volume"] == db["quote_volume"];
      assert da["taker_buy_base_volume"] == db["taker_buy_base_volume"];
      assert da["taker_buy_quote_volume"] == db["taker_buy_quote_volume"];
      assert da["trades"] == db["trades"] && da["open_time"] == db["open_time"];
    }
  }

  /** The first candle of `symbol` in the list (`df[df['symbol'] == symbol].iloc[0]`), if any. */
  function FirstCandle(cs: seq<Candle>, symbol: string): (r: Option<Candle>)
    ensures r.None? <==> forall k | 0 <= k < |cs| :: cs[k].symbol != symbol
    ensures r.Some? ==> exists k | 0 <= k < |cs| :: cs[k] == r.value && cs[k].symbol == symbol
                          && forall j | 0 <= j < k :: cs[j].symbol != symbol
  {
    if |cs| == 0 then None
    else if cs[0].symbol == symbol then Some(cs[0])
    else
      var r := FirstCandle(cs[1..], symbol);
      assert r.Some? ==> exists k | 0 <= k < |cs| :: cs[k] == r.value && cs[k].symbol == symbol
                          && forall j | 0 <= j < k :: cs[j].symbol != symbol by {
        if r.Some? {
          var k :| 0 <= k < |cs[1..]| && cs[1..][k] == r.value && cs[1..][k].symbol == symbol
                   && forall j | 0 <= j < k :: cs[1..][j].symbol != symbol;
          assert cs[k + 1] == r.value;
        }
      }
      r
  }
}
