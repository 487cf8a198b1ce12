/**
 * `AlertRecord`: one alert raised for a ticker, with the price extremes seen
 * after it and the risk/profit columns derived from them, and its dict codec.
 */
module AlertRecords {
  import opened Wrappers
  import opened Values

  datatype AlertRecord = AlertRecord(
    ticker: string,
    volume: string,              // the textual reason of the alert
    time: int,                   // alert time, epoch milliseconds
    buyShortPrice: Option<real>,
    minPrice: Option<real>,
    minPriceTime: Option<int>,
    maxPrice: Option<real>,
    maxPriceTime: Option<int>,
    rps1: Option<real>, rps2: Option<real>, rps3: Option<real>, rps4: Option<real>, rps5: Option<real>,
    maxLoss: Option<real>,
    rpb1: Option<real>, rpb2: Option<real>, rpb3: Option<real>, rpb4: Option<real>, rpb5: Option<real>,
    maxProfit: Option<real>)

  /** The four groups of fields the update operations work on. */
  datatype Identity = Identity(ticker: string, volume: string, time: int, buy: Option<real>)
  datatype Prices = Prices(minP: Option<real>, minT: Option<int>, maxP: Option<real>, maxT: Option<int>)
  datatype Six = Six(a: Option<real>, b: Option<real>, c: Option<real>, d: Option<real>, e: Option<real>, f: Option<real>)

  function IdentityOf(a: AlertRecord): Identity {
    Identity(a.ticker, a.volume, a.time, a.buyShortPrice)
  }

  function PricesOf(a: AlertRecord): Prices {
    Prices(a.minPrice, a.minPriceTime, a.maxPrice, a.maxPriceTime)
  }

  function RpsOf(a: AlertRecord): Six {
    Six(a.rps1, a.rps2, a.rps3, a.rps4, a.rps5, a.maxLoss)
  }

  function RpbOf(a: AlertRecord): Six {
    Six(a.rpb1, a.rpb2, a.rpb3, a.rpb4, a.rpb5, a.maxProfit)
  }

  /** The four groups cover every field: a record is determined by them. */
  lemma PartsDetermineRecord(a: AlertRecord, b: AlertRecord)
    ensures a == b <==>
      IdentityOf(a) == IdentityOf(b) && PricesOf(a) == PricesOf(b) && RpsOf(a) == RpsOf(b) && RpbOf(a) == RpbOf(b)
  {
  }

  /** The column headers `to_dict` writes, in order. */
  const AlertHeader: seq<string> := ["ticker", "volume", "time", "buy_short_price", "min_price", "min_price_time", "max_price", "max_price_time", "RPS_(30%)_SL_1%", "RPS_(30%)_SL_2%", "RPS_(30%)_SL_3%", "RPS_(30%)_SL_4%", "RPS_(30%)_SL_5%", "max_loss_%", "RPB_(30%)_SL_1%", "RPB_(30%)_SL_2%", "RPB_(30%)_SL_3%", "RPB_(30%)_SL_4%", "RPB_(30%)_SL_5%", "max_proffit_%"]

  /**
   * An alert row of the CSV file / dict, one cell per column of
   * `AlertHeader`. The three leading columns may be missing (`from_dict`
   * indexes them); for the others `from_dict` uses `.get`, and a missing
   * key reads exactly like NA, so a missing cell is written as `VNA`.
   */
  datatype AlertRow = AlertRow(
    ticker: Option<Value>,
    volume: Option<Value>,
    time: Option<Value>,
    buyShortPrice: Value,
    minPrice: Value,
    minPriceTime: Value,
    maxPrice: Value,
    maxPriceTime: Value,
    rps1: Value,
    rps2: Value,
    rps3: Value,
    rps4: Value,
    rps5: Value,
    maxLoss: Value,
    rpb1: Value,
    rpb2: Value,
    rpb3: Value,
    rpb4: Value,
    rpb5: Value,
    maxProfit: Value)

  /** Each optional field is what `clean_value` reads from its cell. */
  predicate CellsRead(row: AlertRow, a: AlertRecord) {
    && CleanReal(row.buyShortPrice) == Some(a.buyShortPrice)
    && CleanReal(row.minPrice) == Some(a.minPrice)
    && CleanInt(row.minPriceTime) == Some(a.minPriceTime)
    && CleanReal(row.maxPrice) == Some(a.maxPrice)
    && CleanInt(row.maxPriceTime) == Some(a.maxPriceTime)
    && CleanReal(row.rps1) == Some(a.rps1)
    && CleanReal(row.rps2) == Some(a.rps2)
    && CleanReal(row.rps3) == Some(a.rps3)
    && CleanReal(row.rps4) == Some(a.rps4)
    && CleanReal(row.rps5) == Some(a.rps5)
    && CleanReal(row.maxLoss) == Some(a.maxLoss)
    && CleanReal(row.rpb1) == Some(a.rpb1)
    && CleanReal(row.rpb2) == Some(a.rpb2)
    && CleanReal(row.rpb3) == Some(a.rpb3)
    && CleanReal(row.rpb4) == Some(a.rpb4)
    && CleanReal(row.rpb5) == Some(a.rpb5)
    && CleanReal(row.maxProfit) == Some(a.maxProfit)
  }

  /** Each optional cell is NA exactly where its field is None. */
  predicate NAExactlyNone(row: AlertRow, a: AlertRecord) {
    && (row.buyShortPrice.VNA? <==> a.buyShortPrice.None?)
    && (row.minPrice.VNA? <==> a.minPrice.None?)
    && (row.minPriceTime.VNA? <==> a.minPriceTime.None?)
    && (row.maxPrice.VNA? <==> a.maxPrice.None?)
    && (row.maxPriceTime.VNA? <==> a.maxPriceTime.None?)
    && (row.rps1.VNA? <==> a.rps1.None?)
    && (row.rps2.VNA? <==> a.rps2.None?)
    && (row.rps3.VNA? <==> a.rps3.None?)
    && (row.rps4.VNA? <==> a.rps4.None?)
    && (row.rps5.VNA? <==> a.rps5.None?)
    && (row.maxLoss.VNA? <==> a.maxLoss.None?)
    && (row.rpb1.VNA? <==> a.rpb1.None?)
    && (row.rpb2.VNA? <==> a.rpb2.None?)
    && (row.rpb3.VNA? <==> a.rpb3.None?)
    && (row.rpb4.VNA? <==> a.rpb4.None?)
    && (row.rpb5.VNA? <==> a.rpb5.None?)
    && (row.maxProfit.VNA? <==> a.maxProfit.None?)
  }

  /** `AlertRecord.to_dict`: all twenty columns, an absent optional value written as NA. */
  function ToDict(a: AlertRecord): (row: AlertRow)
    ensures row.ticker == Some(VStr(a.ticker)) && row.volume == Some(VStr(a.volume))
    ensures row.time == Some(VInt(a.time))
    ensures NAExactlyNone(row, a)
    ensures CellsRead(row, a)
  {
    AlertRow(
      Some(VStr(a.ticker)), Some(VStr(a.volume)), Some(VInt(a.time)),
      EncodeReal(a.buyShortPrice),
      EncodeReal(a.minPrice),
      EncodeInt(a.minPriceTime),
      EncodeReal(a.maxPrice),
      EncodeInt(a.maxPriceTime),
      EncodeReal(a.rps1),
      EncodeReal(a.rps2),
      EncodeReal(a.rps3),
      EncodeReal(a.rps4),
      EncodeReal(a.rps5),
      EncodeReal(a.maxLoss),
      EncodeReal(a.rpb1),
      EncodeReal(a.rpb2),
      EncodeReal(a.rpb3),
      EncodeReal(a.rpb4),
      EncodeReal(a.rpb5),
      EncodeReal(a.maxProfit))
  }

  /** Every optional cell holds NA or a number of the column's kind. */
  predicate AllCleanable(row: AlertRow) {
    && CleanReal(row.buyShortPrice).Some?
    && CleanReal(row.minPrice).Some?
    && CleanInt(row.minPriceTime).Some?
    && CleanReal(row.maxPrice).Some?
    && CleanInt(row.maxPriceTime).Some?
    && CleanReal(row.rps1).Some?
    && CleanReal(row.rps2).Some?
    && CleanReal(row.rps3).Some?
    && CleanReal(row.rps4).Some?
    && CleanReal(row.rps5).Some?
    && CleanReal(row.maxLoss).Some?
    && CleanReal(row.rpb1).Some?
    && CleanReal(row.rpb2).Some?
    && CleanReal(row.rpb3).Some?
    && CleanReal(row.rpb4).Some?
    && CleanReal(row.rpb5).Some?
    && CleanReal(row.maxProfit).Some?
  }

  /**
   * The rows the typed record can hold: ticker and volume strings, a time
   * `int()` accepts, and optional cells that are NA or numbers of the
   * column's kind. Python only needs the three keys and an `int()`-able time.
   */
  predicate Readable(row: AlertRow) {
    && row.ticker.Some? && row.ticker.value.VStr?
    && row.volume.Some? && row.volume.value.VStr?
    && row.time.Some? && AsInt(row.time.value).Some?
    && AllCleanable(row)
  }

  /**
   * `AlertRecord.from_dict`: ticker, volume and time are required and the
   * time goes through `int()`; every other cell goes through `clean_value`.
   * None where Python raises, and also where a cell's value has no place in
   * the typed record (Python would store it as it is).
   */
  function FromDict(row: AlertRow): (r: Option<AlertRecord>)
    ensures r.Some? <==> Readable(row)
    ensures r.Some? ==> (
      && r.value.ticker == row.ticker.value.s && r.value.volume == row.volume.value.s
      && Some(r.value.time) == AsInt(row.time.value)
      && CellsRead(row, r.value)
      && NAExactlyNone(row, r.value))
  {
    if !Readable(row) then None
    else Some(AlertRecord(
      row.ticker.value.s, row.volume.value.s, AsInt(row.time.value).value,
      CleanReal(row.buyShortPrice).value,
      CleanReal(row.minPrice).value,
      CleanInt(row.minPriceTime).value,
      CleanReal(row.maxPrice).value,
      CleanInt(row.maxPriceTime).value,
      CleanReal(row.rps1).value,
      CleanReal(row.rps2).value,
      CleanReal(row.rps3).value,
      CleanReal(row.rps4).value,
      CleanReal(row.rps5).value,
      CleanReal(row.maxLoss).value,
      CleanReal(row.rpb1).value,
      CleanReal(row.rpb2).value,
      CleanReal(row.rpb3).value,
      CleanReal(row.rpb4).value,
      CleanReal(row.rpb5).value,
      CleanReal(row.maxProfit).value))
  }

  /** Round trip: `from_dict(to_dict(a)) == a` for every record. */
  lemma FromToDict(a: AlertRecord)
    ensures FromDict(ToDict(a)) == Some(a)
  {
  }

  /** Writing back a row that was read reproduces it, when its numbers are already of the column's kind. */
  lemma ToFromDict(row: AlertRow)
    requires Readable(row) && row.time.value.VInt?
    requires forall v | v in RealCells(row) :: !v.VInt?
    requires !row.minPriceTime.VReal? && !row.maxPriceTime.VReal?
    ensures ToDict(FromDict(row).value) == row
  {
  }

  function RealCells(row: AlertRow): seq<Value> {
    [row.buyShortPrice, row.minPrice, row.maxPrice, row.rps1, row.rps2, row.rps3, row.rps4, row.rps5,
     row.maxLoss, row.rpb1, row.rpb2, row.rpb3, row.rpb4, row.rpb5, row.maxProfit]
  }

  /** A row with only the three required columns reads as a fresh alert. */
  lemma FromMinimalDict(ticker: string, reason: string, t: int)
    ensures FromDict(AlertRow(Some(VStr(ticker)), Some(VStr(reason)), Some(VInt(t)),
                              VNA, VNA, VNA, VNA, VNA, VNA, VNA, VNA, VNA, VNA, VNA, VNA, VNA, VNA, VNA, VNA, VNA))
         == Some(CreateFromAlert(ticker, reason, t))
  {
  }

  /** A freshly raised alert: nothing beyond the identity fields is known yet. */
  predicate IsFresh(a: AlertRecord) {
    && a.buyShortPrice.None?
    && PricesOf(a) == Prices(None, None, None, None)
    && RpsOf(a) == Six(None, None, None, None, None, None)
    && RpbOf(a) == Six(None, None, None, None, None, None)
  }

  /** `AlertRecord.create_from_alert`. */
  function CreateFromAlert(ticker: string, reason: string, t: int): (a: AlertRecord)
    ensures IdentityOf(a) == Identity(ticker, reason, t, None)
    ensures IsFresh(a)
  {
    AlertRecord(ticker, reason, t, None, None, None, None, None,
                None, None, None, None, None, None, None, None, None, None, None, None)
  }

  /** A fresh alert's dict has NA in every optional float column. */
  lemma FreshDictAllNA(ticker: string, reason: string, t: int)
    ensures var row := ToDict(CreateFromAlert(ticker, reason, t));
      forall v | v in RealCells(row) :: v == VNA
  {
  }

  /** `update_prices`: sets the four extreme fields and nothing else. */
  function UpdatePrices(a: AlertRecord, minP: real, minT: int, maxP: real, maxT: int): (r: AlertRecord)
    ensures PricesOf(r) == Prices(Some(minP), Some(minT), Some(maxP), Some(maxT))
    ensures IdentityOf(r) == IdentityOf(a) && RpsOf(r) == RpsOf(a) && RpbOf(r) == RpbOf(a)
  {
    a.(minPrice := Some(minP), minPriceTime := Some(minT), maxPrice := Some(maxP), maxPriceTime := Some(maxT))
  }

  /** `update_rps_values`: sets the five RPS columns and the maximum loss, nothing else. */
  function UpdateRps(a: AlertRecord, s1: real, s2: real, s3: real, s4: real, s5: real, maxLoss: real): (r: AlertRecord)
    ensures RpsOf(r) == Six(Some(s1), Some(s2), Some(s3), Some(s4), Some(s5), Some(maxLoss))
    ensures IdentityOf(r) == IdentityOf(a) && PricesOf(r) == PricesOf(a) && RpbOf(r) == RpbOf(a)
  {
    a.(rps1 := Some(s1), rps2 := Some(s2), rps3 := Some(s3), rps4 := Some(s4), rps5 := Some(s5),
       maxLoss := Some(maxLoss))
  }

  /** `update_rpb_values`: sets the five RPB columns and the maximum profit, nothing else. */
  function UpdateRpb(a: AlertRecord, s1: real, s2: real, s3: real, s4: real, s5: real, maxProfit: real): (r: AlertRecord)
    ensures RpbOf(r) == Six(Some(s1), Some(s2), Some(s3), Some(s4), Some(s5), Some(maxProfit))
    ensures IdentityOf(r) == IdentityOf(a) && PricesOf(r) == PricesOf(a) && RpsOf(r) == RpsOf(a)
  {
    a.(rpb1 := Some(s1), rpb2 := Some(s2), rpb3 := Some(s3), rpb4 := Some(s4), rpb5 := Some(s5),
       maxProfit := Some(maxProfit))
  }

  /** The three updates touch disjoint fields, so their order does not matter. */
  lemma UpdatesCommute(a: AlertRecord, p: Prices, s: Six, b: Six)
    requires p.minP.Some? && p.minT.Some? && p.maxP.Some? && p.maxT.Some?
    requires s.a.Some? && s.b.Some? && s.c.Some? && s.d.Some? && s.e.Some? && s.f.Some?
    requires b.a.Some? && b.b.Some? && b.c.Some? && b.d.Some? && b.e.Some? && b.f.Some?
    ensures
      var x := UpdateRpb(UpdateRps(UpdatePrices(a, p.minP.value, p.minT.value, p.maxP.value, p.maxT.value),
                 s.a.value, s.b.value, s.c.value, s.d.value, s.e.value, s.f.value),
                 b.a.value, b.b.value, b.c.value, b.d.value, b.e.value, b.f.value);
      var y := UpdatePrices(UpdateRps(UpdateRpb(a, b.a.value, b.b.value, b.c.value, b.d.value, b.e.value, b.f.value),
                 s.a.value, s.b.value, s.c.value, s.d.value, s.e.value, s.f.value),
                 p.minP.value, p.minT.value, p.maxP.value, p.maxT.value);
      x == y && PricesOf(x) == p && RpsOf(x) == s && RpbOf(x) == b && IdentityOf(x) == IdentityOf(a)
  {
  }
}
