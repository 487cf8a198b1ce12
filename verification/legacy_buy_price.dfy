/**
 * The legacy strategy tester's buy-price writer: for every alert still
 * without a buy price it opens the K-line file of the alert's minute, takes
 * the ticker's close from it, and writes that price as buy, min and max into
 * every row of the ticker.
 */
module LegacyBuyPrice {
  import opened Wrappers
  import opened Candles
  import opened KlineFilenames

  /** The columns of a legacy alerts row this writer reads or writes; the other columns pass through. */
  datatype AlertRow = AlertRow(ticker: string, time: string, buy: Option<real>, minPrice: Option<real>, maxPrice: Option<real>)

  /** `get_high_price_for_ticker`: the close of the ticker's first row, None when absent. */
  function PriceForTicker(cs: seq<Candle>, ticker: string): (r: Option<real>)
    ensures r.None? <==> forall k | 0 <= k < |cs| :: cs[k].symbol != ticker
    ensures r.Some? ==> exists k | 0 <= k < |cs| :: cs[k].symbol == ticker && cs[k].close == r.value
                          && forall j | 0 <= j < k :: cs[j].symbol != ticker
  {
    match FirstCandle(cs, ticker)
    case None => None
    case Some(c) => Some(c.close)
  }

  /**
   * The price found for a row without buy price: its K-line file must be
   * named (the timestamp parses) and present among `files`, and must hold
   * the ticker.
   */
  function RowPrice(row: AlertRow, files: map<string, seq<Candle>>): Option<real> {
    match TimestampToFilename(row.time)
    case None => None
    case Some(name) => if name in files then PriceForTicker(files[name], row.ticker) else None
  }

  /** A row that asks for a price and gets one. */
  predicate Resolved(row: AlertRow, files: map<string, seq<Candle>>) {
    row.buy.None? && RowPrice(row, files).Some?
  }

  /** What each row asks for: its ticker, and the price it gets when it has no buy price yet. */
  function Requests(rows: seq<AlertRow>, files: map<string, seq<Candle>>): (q: seq<(string, Option<real>)>)
    ensures |q| == |rows|
    ensures forall j | 0 <= j < |rows| :: q[j].0 == rows[j].ticker && (q[j].1.Some? <==> Resolved(rows[j], files))
    ensures forall j | 0 <= j < |rows| && q[j].1.Some? :: q[j].1 == RowPrice(rows[j], files)
  {
    seq(|rows|, j requires 0 <= j < |rows| => (rows[j].ticker, if rows[j].buy.None? then RowPrice(rows[j], files) else None))
  }

  /** Request `e` is for ticker `t` and got a price. */
  predicate PricedFor(e: (string, Option<real>), t: string) {
    e.0 == t && e.1.Some?
  }

  /** The price of the last request of ticker `t` that got one. */
  function LastPrice(q: seq<(string, Option<real>)>, t: string): (r: Option<real>)
    ensures r.None? <==> forall j | 0 <= j < |q| :: !PricedFor(q[j], t)
    ensures r.Some? ==> exists j | 0 <= j < |q| ::
      && q[j].0 == t && r == q[j].1
      && forall k | j < k < |q| :: !PricedFor(q[k], t)
  {
    if |q| == 0 then None
    else
      var n := |q| - 1;
      if PricedFor(q[n], t) then q[n].1
      else
        var r := LastPrice(q[..n], t);
        LastPriceEarlier(q, t, r);
        r
  }

  /** When the last request has no price for `t`, the answer for the earlier requests stands. */
  lemma LastPriceEarlier(q: seq<(string, Option<real>)>, t: string, r: Option<real>)
    requires |q| > 0 && !PricedFor(q[|q| - 1], t)
    requires r == LastPrice(q[..|q| - 1], t)
    ensures r.None? <==> forall j | 0 <= j < |q| :: !PricedFor(q[j], t)
    ensures r.Some? ==> exists j | 0 <= j < |q| ::
      && q[j].0 == t && r == q[j].1
      && forall k | j < k < |q| :: !PricedFor(q[k], t)
  {
    var n := |q| - 1;
    var p := q[..n];
    if r.None? {
      forall j | 0 <= j < |q| ensures !PricedFor(q[j], t) {
        if j < n {
          assert q[j] == p[j];
        }
      }
    } else {
      var j :| 0 <= j < n && p[j].0 == t && r == p[j].1 && forall k | j < k < n :: !PricedFor(p[k], t);
      assert q[j] == p[j];
      forall k | j < k < |q| ensures !PricedFor(q[k], t) {
        if k < n {
          assert q[k] == p[k];
        }
      }
    }
  }

  /**
   * The `updates` dict of `process_alert_file`: each ticker of a resolved row
   * mapped to the price of its last resolved row (later rows overwrite).
   */
  function CollectUpdates(q: seq<(string, Option<real>)>): (u: map<string, real>)
    ensures forall t :: t in u <==> LastPrice(q, t).Some?
    ensures forall t | t in u :: u[t] == LastPrice(q, t).value
  {
    if |q| == 0 then map[]
    else
      var n := |q| - 1;
      var prev := CollectUpdates(q[..n]);
      if q[n].1.Some? then prev[q[n].0 := q[n].1.value] else prev
  }

  /** `update_alert_file`: every row of an updated ticker gets buy = min = max = its price; other rows are unchanged. */
  function ApplyUpdates(rows: seq<AlertRow>, u: map<string, real>): (r: seq<AlertRow>)
    ensures |r| == |rows|
    ensures forall j | 0 <= j < |rows| && rows[j].ticker in u ::
      var p := Some(u[rows[j].ticker]);
      r[j] == rows[j].(buy := p, minPrice := p, maxPrice := p)
    ensures forall j | 0 <= j < |rows| && rows[j].ticker !in u :: r[j] == rows[j]
  {
    seq(|rows|, j requires 0 <= j < |rows| =>
      if rows[j].ticker in u then
        var p := Some(u[rows[j].ticker]);
        rows[j].(buy := p, minPrice := p, maxPrice := p)
      else rows[j])
  }

  /**
   * `process_alert_file` on the rows of one file: None when no row needs or
   * gets a price (the file is not rewritten), otherwise the updated rows.
   */
  function ProcessAlertFile(rows: seq<AlertRow>, files: map<string, seq<Candle>>): (r: Option<seq<AlertRow>>)
    ensures r.None? <==> forall j | 0 <= j < |rows| :: !Resolved(rows[j], files)
    ensures r.Some? ==> r.value == ApplyUpdates(rows, CollectUpdates(Requests(rows, files)))
  {
    var q := Requests(rows, files);
    var u := CollectUpdates(q);
    if u == map[] then
      assert forall j | 0 <= j < |rows| :: !Resolved(rows[j], files) by {
        forall j | 0 <= j < |rows| ensures !Resolved(rows[j], files) {
          assert LastPrice(q, rows[j].ticker).None?;
        }
      }
      None
    else
      assert exists j | 0 <= j < |rows| :: Resolved(rows[j], files) by {
        var t :| t in u;
        assert LastPrice(q, t).Some?;
      }
      Some(ApplyUpdates(rows, u))
  }

  /** After a write, no row of a ticker that was resolved still lacks a buy price, and buy, min and max agree on its rows. */
  lemma ProcessedTickersPriced(rows: seq<AlertRow>, files: map<string, seq<Candle>>, j: nat, i: nat)
    requires ProcessAlertFile(rows, files).Some? && i < |rows| && j < |rows|
    requires Resolved(rows[i], files) && rows[j].ticker == rows[i].ticker
    ensures var row := ProcessAlertFile(rows, files).value[j];
      row.buy.Some? && row.minPrice == row.buy && row.maxPrice == row.buy
  {
    assert LastPrice(Requests(rows, files), rows[i].ticker).Some?;
  }
}
