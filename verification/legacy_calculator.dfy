/**
 * The legacy calculator: each new K-line file lowers the tracked minimum and
 * raises the tracked maximum of the recent alerts of an `alerts_calc` file,
 * and when anything moved, every row's loss/profit percentages and its RPS /
 * RPB stop-loss cells are recomputed.
 */
module LegacyCalculator {
  import opened Wrappers
  import opened Strings
  import opened Candles
  import opened Calendar

  /** The five stop-loss levels 1%..5%, one cell each. */
  const Levels: nat := 5

  type Cells = s: seq<Option<real>> | |s| == Levels witness [None, None, None, None, None]

  /**
   * One row of an `alerts_calc` file. `time` is the alert's instant; the
   * price-time columns hold `%Y-%m-%d %H:%M:%S` text or nothing. Rows reach
   * this file only with a buy price (see `AlertsCopy.KeepRow`), so `buy` is
   * always present.
   */
  datatype CalcRow = CalcRow(
    ticker: string,
    time: int,
    buy: real,
    minPrice: Option<real>,
    minTime: Option<string>,
    maxPrice: Option<real>,
    maxTime: Option<string>,
    maxLoss: Option<real>,
    maxProfit: Option<real>,
    rps: Cells,
    rpb: Cells)

  // ---------------------------------------------------------------------------
  // Min / max tracking

  /** The tracked minimum, or the buy price while there is none. */
  function CurrentMin(r: CalcRow): real {
    r.minPrice.GetOr(r.buy)
  }

  function CurrentMax(r: CalcRow): real {
    r.maxPrice.GetOr(r.buy)
  }

  /** The number of the two prices a candle moves (`updated_count` for one row). */
  function Moves(r: CalcRow, c: Candle): nat {
    (if c.low < CurrentMin(r) then 1 else 0) + (if c.high > CurrentMax(r) then 1 else 0)
  }

  /** One row of the tracking loop: a lower low becomes the minimum, a higher high the maximum, each stamped. */
  function TrackRow(r: CalcRow, c: Candle, stamp: string): (t: CalcRow)
    ensures t.minPrice != r.minPrice <==> c.low < CurrentMin(r)
    ensures t.maxPrice != r.maxPrice <==> c.high > CurrentMax(r)
    ensures c.low < CurrentMin(r) ==> t.minPrice == Some(c.low) && t.minTime == Some(stamp)
    ensures c.high > CurrentMax(r) ==> t.maxPrice == Some(c.high) && t.maxTime == Some(stamp)
    ensures !(c.low < CurrentMin(r)) ==> t.minTime == r.minTime
    ensures !(c.high > CurrentMax(r)) ==> t.maxTime == r.maxTime
    ensures CurrentMin(t) <= CurrentMin(r) && CurrentMax(t) >= CurrentMax(r)
    ensures t == r <==> Moves(r, c) == 0
    ensures t.ticker == r.ticker && t.time == r.time && t.buy == r.buy
    ensures t.maxLoss == r.maxLoss && t.maxProfit == r.maxProfit && t.rps == r.rps && t.rpb == r.rpb
  {
    var r1 := if c.low < CurrentMin(r) then r.(minPrice := Some(c.low), minTime := Some(stamp)) else r;
    if c.high > CurrentMax(r) then r1.(maxPrice := Some(c.high), maxTime := Some(stamp)) else r1
  }

  /** The row after the tracking step: recent rows with a candle for their ticker are tracked. */
  function Tracked(r: CalcRow, cs: seq<Candle>, stamp: string, threshold: int): (t: CalcRow)
    ensures !(r.time >= threshold && FirstCandle(cs, r.ticker).Some?) ==> t == r
    ensures r.time >= threshold && FirstCandle(cs, r.ticker).Some? ==> t == TrackRow(r, FirstCandle(cs, r.ticker).value, stamp)
  {
    if r.time >= threshold then
      match FirstCandle(cs, r.ticker)
      case None => r
      case Some(c) => TrackRow(r, c, stamp)
    else r
  }

  /** The prices one row's tracking step moves. */
  function RowMoves(r: CalcRow, cs: seq<Candle>, threshold: int): nat {
    if r.time >= threshold && FirstCandle(cs, r.ticker).Some? then Moves(r, FirstCandle(cs, r.ticker).value) else 0
  }

  /** `updated_count` over the whole file. */
  function UpdatedCount(rows: seq<CalcRow>, cs: seq<Candle>, threshold: int): (n: nat)
    ensures n == 0 <==> forall j | 0 <= j < |rows| :: RowMoves(rows[j], cs, threshold) == 0
  {
    if |rows| == 0 then 0
    else
      assert forall j | 0 <= j < |rows| - 1 :: rows[..|rows| - 1][j] == rows[j];
      UpdatedCount(rows[..|rows| - 1], cs, threshold) + RowMoves(rows[|rows| - 1], cs, threshold)
  }

  // ---------------------------------------------------------------------------
  // Derived fields

  /** `d / buy * 100`, with an exact zero replaced by 0.001. */
  function Percent(d: real, buy: real): (p: real)
    requires buy != 0.0
    ensures p != 0.0
    ensures d != 0.0 ==> p == d / buy * 100.0
    ensures d == 0.0 ==> p == 0.001
  {
    var p := d / buy * 100.0;
    if p == 0.0 then 0.001 else p
  }

  /** A cell holding -i or 0 is settled and never recomputed. */
  predicate Settled(cell: Option<real>, i: nat) {
    cell == Some(-(i as real)) || cell == Some(0.0)
  }

  /**
   * One RPS/RPB cell at level `i`. `lead` is the percentage that must exceed
   * `i` (profit for RPS, loss for RPB), `other` the one judged against 3%
   * and 5%, `ordered` whether the extremes came in the required order.
   */
  function StopLossCell(cell: Option<real>, i: nat, lead: real, other: real, ordered: bool): (r: Option<real>)
    ensures Settled(cell, i) ==> r == cell
    ensures !Settled(cell, i) && lead > i as real && ordered && other < 3.0 ==> r == Some(-(i as real))
    ensures !Settled(cell, i) && lead > i as real && ordered && 3.0 < other < 5.0 ==> r == Some(0.0)
    ensures !Settled(cell, i) && !(lead > i as real && ordered && (other < 3.0 || 3.0 < other < 5.0)) ==> r == Some(other * 0.3)
  {
    if Settled(cell, i) then cell
    else if lead > i as real && other < 3.0 && ordered then Some(-(i as real))
    else if lead > i as real && 3.0 < other < 5.0 && ordered then Some(0.0)
    else Some(other * 0.3)
  }

  /** The five cells of one kind. */
  function Recompute(cells: Cells, lead: real, other: real, ordered: bool): (r: Cells)
    ensures forall k | 0 <= k < Levels :: r[k] == StopLossCell(cells[k], k + 1, lead, other, ordered)
  {
    seq(Levels, k requires 0 <= k < Levels => StopLossCell(cells[k], k + 1, lead, other, ordered))
  }

  /** `pd.notna(t) ? t : ''`. */
  function TimeText(t: Option<string>): string {
    t.GetOr("")
  }

  /**
   * `calculate_derived_fields` for one row. A zero buy price raises
   * ZeroDivisionError, which is caught: the row is left as it is.
   */
  function DeriveRow(r: CalcRow): (d: CalcRow)
    ensures r.buy == 0.0 ==> d == r
    ensures r.buy != 0.0 ==> (
      && d.maxLoss == Some(Percent(r.buy - CurrentMin(r), r.buy))
      && d.maxProfit == Some(Percent(CurrentMax(r) - r.buy, r.buy))
      && d.rps == Recompute(r.rps, d.maxProfit.value, d.maxLoss.value, LexLess(TimeText(r.minTime), TimeText(r.maxTime)))
      && d.rpb == Recompute(r.rpb, d.maxLoss.value, d.maxProfit.value, LexLess(TimeText(r.maxTime), TimeText(r.minTime))))
    ensures d.ticker == r.ticker && d.time == r.time && d.buy == r.buy
    ensures d.minPrice == r.minPrice && d.minTime == r.minTime && d.maxPrice == r.maxPrice && d.maxTime == r.maxTime
  {
    if r.buy == 0.0 then r
    else
      var loss := Percent(r.buy - CurrentMin(r), r.buy);
      var profit := Percent(CurrentMax(r) - r.buy, r.buy);
      var minFirst := LexLess(TimeText(r.minTime), TimeText(r.maxTime));
      var maxFirst := LexLess(TimeText(r.maxTime), TimeText(r.minTime));
      r.(maxLoss := Some(loss), maxProfit := Some(profit),
         rps := Recompute(r.rps, profit, loss, minFirst),
         rpb := Recompute(r.rpb, loss, profit, maxFirst))
  }

  /**
   * One row of `update_alert_file` once something moved: tracked, then
   * derived. Its minimum never rises, its maximum never falls, and a
   * settled cell keeps its value.
   */
  function UpdateRow(r: CalcRow, cs: seq<Candle>, stamp: string, threshold: int): (u: CalcRow)
    ensures u == DeriveRow(Tracked(r, cs, stamp, threshold))
    ensures CurrentMin(u) <= CurrentMin(r) && CurrentMax(u) >= CurrentMax(r)
    ensures u.ticker == r.ticker && u.time == r.time && u.buy == r.buy
    ensures forall k | 0 <= k < Levels :: Settled(r.rps[k], k + 1) ==> u.rps[k] == r.rps[k]
    ensures forall k | 0 <= k < Levels :: Settled(r.rpb[k], k + 1) ==> u.rpb[k] == r.rpb[k]
  {
    DeriveRow(Tracked(r, cs, stamp, threshold))
  }

  /**
   * `update_alert_file` on the rows of one file, `stamp` being the K-line
   * time as text. None: the file is not rewritten (it is empty, holds no
   * alert newer than `threshold`, or no price moved). Otherwise every row,
   * recent or not, is tracked and then derived.
   */
  function UpdateAlertFile(rows: seq<CalcRow>, cs: seq<Candle>, stamp: string, threshold: int): (r: Option<seq<CalcRow>>)
    ensures r.None? <==> forall j | 0 <= j < |rows| :: Tracked(rows[j], cs, stamp, threshold) == rows[j]
    ensures r.Some? ==> |r.value| == |rows|
    ensures r.Some? ==> forall j | 0 <= j < |rows| :: r.value[j] == UpdateRow(rows[j], cs, stamp, threshold)
  {
    if UpdatedCount(rows, cs, threshold) == 0 then None
    else Some(seq(|rows|, j requires 0 <= j < |rows| => UpdateRow(rows[j], cs, stamp, threshold)))
  }

  /** A loss or profit percentage over a positive buy price is positive exactly when the move is not negative. */
  lemma PercentSign(d: real, buy: real)
    requires buy > 0.0
    ensures Percent(d, buy) > 0.0 <==> d >= 0.0
  {
    if d > 0.0 {
      assert d / buy > 0.0;
    } else if d < 0.0 {
      assert d / buy < 0.0;
    }
  }

  /** Recomputing a cell a second time with the same percentages changes nothing. */
  lemma StopLossCellIdempotent(cell: Option<real>, i: nat, lead: real, other: real, ordered: bool)
    ensures var once := StopLossCell(cell, i, lead, other, ordered);
      StopLossCell(once, i, lead, other, ordered) == once
  {
  }

  /** Deriving twice derives once: the percentages depend only on the prices, and the cells on the percentages. */
  lemma DeriveRowIdempotent(r: CalcRow)
    ensures DeriveRow(DeriveRow(r)) == DeriveRow(r)
  {
    if r.buy != 0.0 {
      var d := DeriveRow(r);
      var loss, profit := d.maxLoss.value, d.maxProfit.value;
      var minFirst := LexLess(TimeText(r.minTime), TimeText(r.maxTime));
      var maxFirst := LexLess(TimeText(r.maxTime), TimeText(r.minTime));
      forall k | 0 <= k < Levels
        ensures StopLossCell(d.rps[k], k + 1, profit, loss, minFirst) == d.rps[k]
        ensures StopLossCell(d.rpb[k], k + 1, loss, profit, maxFirst) == d.rpb[k]
      {
        StopLossCellIdempotent(r.rps[k], k + 1, profit, loss, minFirst);
        StopLossCellIdempotent(r.rpb[k], k + 1, loss, profit, maxFirst);
      }
      assert DeriveRow(d).rps == d.rps && DeriveRow(d).rpb == d.rpb;
    }
  }
}
