/** The per-symbol hourly (or partial-hour) aggregate `HoursRecord` and its dict codec. */
module HoursRecords {
  import opened Wrappers
  import opened Values

  datatype HoursRecord = HoursRecord(
    symbol: string,
    open: real,
    close: real,
    high: real,
    low: real,
    totalVolume: real)

  const HoursKeys: set<string> := {"symbol", "open", "close", "high", "low", "total_volume"}

  /** `HoursRecord.to_dict`. */
  function ToDict(h: HoursRecord): (d: Dict)
    ensures d.Keys == HoursKeys
    ensures d["symbol"] == VStr(h.symbol) && d["total_volume"] == VReal(h.totalVolume)
  {
    map["symbol" := VStr(h.symbol), "open" := VReal(h.open), "close" := VReal(h.close),
        "high" := VReal(h.high), "low" := VReal(h.low), "total_volume" := VReal(h.totalVolume)]
  }

  /** The six keys, five numbers `float()` accepts, and a symbol the typed record can hold (a string). */
  predicate Readable(d: Dict) {
    && HoursKeys <= d.Keys
    && d["symbol"].VStr?
    && AsFloat(d["open"]).Some? && AsFloat(d["close"]).Some? && AsFloat(d["high"]).Some?
    && AsFloat(d["low"]).Some? && AsFloat(d["total_volume"]).Some?
  }

  /**
   * `HoursRecord.from_dict`: reads exactly the six keys and ignores all others;
   * None where Python raises (a missing key or a value `float()` rejects),
   * and also for a non-string symbol, which Python would store unchecked.
   */
  function FromDict(d: Dict): (r: Option<HoursRecord>)
    ensures r.Some? <==> Readable(d)
    ensures r.Some? ==> (
      && r.value.symbol == d["symbol"].s
      && Some(r.value.open) == AsFloat(d["open"]) && Some(r.value.close) == AsFloat(d["close"])
      && Some(r.value.high) == AsFloat(d["high"]) && Some(r.value.low) == AsFloat(d["low"])
      && Some(r.value.totalVolume) == AsFloat(d["total_volume"]))
  {
    if !Readable(d) then None
    else Some(HoursRecord(d["symbol"].s, AsFloat(d["open"]).value, AsFloat(d["close"]).value,
                          AsFloat(d["high"]).value, AsFloat(d["low"]).value,
                          AsFloat(d["total_volume"]).value))
  }

  /** Round trip: reading back a written record gives the record. */
  lemma FromToDict(h: HoursRecord)
    ensures FromDict(ToDict(h)) == Some(h)
  {
  }

  /** Keys other than the six (the dynamic aggregator's std/avg keys) make no difference. */
  lemma FromDictIgnoresExtraKeys(d: Dict, extra: Dict)
    requires extra.Keys !! HoursKeys
    ensures FromDict(d + extra) == FromDict(d)
  {
    assert forall k | k in HoursKeys :: (k in d + extra <==> k in d);
    assert forall k | k in HoursKeys && k in d :: (d + extra)[k] == d[k];
  }

  /** A readable dict whose numbers are floats is reproduced, on the six keys, by `to_dict(from_dict(d))`. */
  lemma ToFromDict(d: Dict)
    requires Readable(d)
    requires forall k | k in HoursKeys - {"symbol"} :: d[k].VReal?
    ensures ToDict(FromDict(d).value) == map k | k in HoursKeys :: d[k]
  {
  }
}
