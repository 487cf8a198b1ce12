/**
 * The trader bot's decision helpers: price lookup, side-aware extremes,
 * position growth in percent, the stop-loss band test, and the choice of
 * tickers to open positions for.
 */
module TraderLogic {
  import opened Wrappers
  import opened Strings
  import opened Sorting
  import opened TickerDiff

  /** One entry of the exchange's ticker-price list. */
  datatype TickerPrice = TickerPrice(symbol: string, price: real)

  /** `get_price_from_list`: the price of the first entry for the ticker, 0 when there is none. */
  function PriceFromList(ticker: string, prices: seq<TickerPrice>): (p: real)
    ensures (forall k | 0 <= k < |prices| :: prices[k].symbol != ticker) ==> p == 0.0
    ensures (exists k | 0 <= k < |prices| :: prices[k].symbol == ticker) ==>
      exists k | 0 <= k < |prices| :: prices[k].symbol == ticker && prices[k].price == p
        && forall j | 0 <= j < k :: prices[j].symbol != ticker
  {
    if |prices| == 0 then 0.0
    else if prices[0].symbol == ticker then prices[0].price
    else
      var p := PriceFromList(ticker, prices[1..]);
      assert forall k | 1 <= k < |prices| :: prices[1..][k - 1] == prices[k];
      p
  }

  const Buy: string := "BUY"

  /** `maximise_with_side`: the larger value for a buy, the smaller for any other side. */
  function MaximiseWithSide(v1: real, v2: real, side: string): (r: real)
    ensures r == v1 || r == v2
    ensures side == Buy ==> r >= v1 && r >= v2
    ensures side != Buy ==> r <= v1 && r <= v2
  {
    if side == Buy then (if v1 >= v2 then v1 else v2)
    else (if v1 <= v2 then v1 else v2)
  }

  /** The side-aware extreme does not depend on the order of its arguments. */
  lemma MaximiseSymmetric(v1: real, v2: real, side: string)
    ensures MaximiseWithSide(v1, v2, side) == MaximiseWithSide(v2, v1, side)
  {
  }

  /**
   * `get_position_grow`: the change from entry to current price in percent
   * of the entry. None stands for the ZeroDivisionError of a zero entry.
   */
  function PositionGrow(entry: real, current: real): (g: Option<real>)
    ensures g.None? <==> entry == 0.0
    ensures g.Some? ==> current == entry + entry * g.value / 100.0
  {
    if entry == 0.0 then None else Some((current - entry) / entry * 100.0)
  }

  /** For a positive entry the growth is zero exactly at the entry price, and positive exactly above it. */
  lemma PositionGrowSign(entry: real, current: real)
    requires entry > 0.0
    ensures PositionGrow(entry, current).value == 0.0 <==> current == entry
    ensures PositionGrow(entry, current).value > 0.0 <==> current > entry
  {
    var g := PositionGrow(entry, current).value;
    assert current - entry == entry * g / 100.0;
    if g > 0.0 {
      assert entry * g > 0.0;
    } else if g < 0.0 {
      assert entry * g < 0.0;
    }
  }

  /** `low < x < high`. */
  predicate InBand(x: real, low: real, high: real) {
    low < x && x < high
  }

  /**
   * `analyze_stop_loss`: a buy whose change lies strictly between the two
   * levels, or, for any side, a change lying strictly between their
   * negations.
   */
  function AnalyzeStopLoss(pct: real, side: string, low: real, high: real): (hit: bool)
    ensures hit <==> (side == Buy && InBand(pct, low, high)) || InBand(-pct, low, high)
  {
    if side == Buy && low < pct && pct < high then true
    else if -low > pct && pct > -high then true
    else false
  }

  /**
   * Any other side reacts only to the negated band, and a buy reacts exactly
   * where that side does at the change or at its negation.
   */
  lemma StopLossMirror(pct: real, side: string, low: real, high: real)
    requires side != Buy
    ensures AnalyzeStopLoss(pct, side, low, high) <==> InBand(-pct, low, high)
    ensures AnalyzeStopLoss(pct, Buy, low, high) <==> AnalyzeStopLoss(pct, side, low, high) || AnalyzeStopLoss(-pct, side, low, high)
  {
  }

  /**
   * `check_available_position`: the tickers new in the list and not yet
   * open on the exchange, sorted; the empty list when there are none.
   */
  function CheckAvailablePosition(tickers: seq<string>, newTickers: seq<string>, openTickers: seq<string>): (r: seq<string>)
    ensures StrictlySortedStrings(r)
    ensures forall x :: x in r <==> x in newTickers && x !in tickers && x !in openTickers
  {
    var added := CompareTickers(tickers, newTickers).added;
    CompareTickers(openTickers, added).added
  }

  /** The result is the one sorted list of the new, unopened tickers: no other order or duplicate is possible. */
  lemma AvailablePositionDetermined(tickers: seq<string>, newTickers: seq<string>, openTickers: seq<string>, s: seq<string>)
    requires StrictlySortedStrings(s)
    requires forall x :: x in s <==> x in newTickers && x !in tickers && x !in openTickers
    ensures CheckAvailablePosition(tickers, newTickers, openTickers) == s
  {
    StrictlySortedUnique(CheckAvailablePosition(tickers, newTickers, openTickers), s);
  }
}
